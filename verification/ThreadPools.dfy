// The thread pool as an object. Its loops are written as the program writes them;
// before every access of shared state the other threads take any steps they can.
// The object keeps the run of the step system it has made so far: every access is
// one step of it, so the theorems about runs are theorems about the object.
module ThreadPools {
  import opened Sequences
  import opened ThreadPoolSteps
  import opened ThreadPoolInvariant
  import opened ThreadPoolTheorems

  datatype Owner = TheWorker(w: Worker) | TheManager | TheCloser

  predicate Mine(me: Owner, e: Event) {
    match me
    case TheWorker(w) => e.WorkerMoves? && e.w == w
    case TheManager => e.ManagerMoves?
    case TheCloser => e.CloserMoves?
  }

  // How many of the steps are the thread's own.
  ghost function Own(me: Owner, events: seq<Event>): nat {
    if events == [] then 0
    else Own(me, events[..|events| - 1]) + (if Mine(me, events[|events| - 1]) then 1 else 0)
  }

  // Worker w is at this place.
  predicate At(threads: seq<WorkerPc>, w: Worker, pc: WorkerPc) { w < |threads| && threads[w] == pc }

  // The thread waits in join for one that is not over.
  predicate Blocked(me: Owner, s: Pool) {
    match me
    case TheWorker(_) => false
    case TheManager => s.manager.Reap? && !ManagerReady(s)
    case TheCloser => (s.closer.QueueClosed? || s.closer.JoinWorkers?) && !CloserReady(s)
  }

  ghost predicate BlockedSince(me: Owner, states: seq<Pool>, from: nat) {
    exists i :: from <= i < |states| && Blocked(me, states[i])
  }

  // How far the run has come, and how many rounds the schedule still has.
  datatype Moment = Moment(states: seq<Pool>, events: seq<Event>, rounds: nat)

  ghost predicate Since(m: Moment, n: Moment) {
    m.states <= n.states && m.events <= n.events && n.rounds <= m.rounds
  }

  // The run had come to state s.
  ghost predicate Saw(m: Moment, s: Pool) { |m.states| == |m.events| + 1 && m.states[|m.events|] == s }

  // For every round from m to n, except at most debt, the thread made an access,
  // unless it had to wait in join.
  ghost predicate Worked(me: Owner, debt: nat, m: Moment, n: Moment) {
    && Since(m, n)
    && (Own(me, n.events) + n.rounds + debt >= Own(me, m.events) + m.rounds || BlockedSince(me, n.states, |m.events|))
  }

  // One round at most, and no access of the thread's own.
  ghost predicate Waited(me: Owner, m: Moment, n: Moment) {
    Since(m, n) && Own(me, n.events) == Own(me, m.events) && m.rounds <= n.rounds + 1
  }

  // One access, which was step e.
  ghost predicate Took(e: Event, m: Moment, n: Moment) {
    n.events == m.events + [e] && m.states <= n.states && m.rounds == n.rounds
  }

  // Three readings, made one after the other, call for so many new workers.
  ghost predicate CalledFor(states: seq<Pool>, from: nat, growCount: nat) {
    exists a, b, c :: from <= a <= b <= c < |states| &&
      Warrants(|states[a].queue|, states[b].live, states[c].busy, states[c].max, growCount)
  }

  // The step with its choice settled where nothing depends on it.
  function Plain(s: Pool, e: Event): Event {
    if e.WorkerMoves? && e.w < |s.workers| && !s.workers[e.w].TestIdle?
       && (s.workers[e.w].Cas? ==> s.workers[e.w].curr <= s.core)
    then WorkerMoves(e.w, true) else e
  }

  // The state after those of the steps that other threads can take, one after another.
  ghost function After(s: Pool, me: Owner, steps: seq<Event>): Pool {
    if steps == [] then s
    else
      var before := After(s, me, steps[..|steps| - 1]);
      var e := Plain(before, steps[|steps| - 1]);
      if !Mine(me, e) && Enabled(before, e) then Apply(before, e) else before
  }

  class ThreadPool {
    const coreThreads: nat
    const maxThreads: nat
    const capacity: nat
    var running: bool
    var acceptingTasks: bool
    var liveThreads: nat
    var busyThreads: nat
    var completedTasks: nat
    var taskQueue: seq<Task>
    var queueShut: bool
    var threads: seq<WorkerPc>        // where each worker thread is
    var workers: seq<Worker>          // the handles
    var exitedThreadIds: seq<Worker>
    var manager: ManagerPc
    var closer: CloserPc
    var submitting: set<Task>
    var accepted: seq<Task>
    var popped: seq<Task>
    var executed: seq<Task>
    var rejected: set<Task>
    var joined: seq<Worker>
    var mark: Option<nat>
    var schedule: seq<seq<Event>>     // what the other threads do, access by access
    ghost var states: seq<Pool>       // the run so far
    ghost var events: seq<Event>

    function View(): Pool
      reads this
    {
      Pool(coreThreads, maxThreads, capacity, running, acceptingTasks, liveThreads, busyThreads, completedTasks,
           taskQueue, queueShut, threads, workers, exitedThreadIds, manager, closer, submitting,
           accepted, popped, executed, rejected, joined, mark)
    }

    // The object is where its run has come to.
    ghost predicate Valid()
      reads this
    {
      IsRun(states, events) && states[|events|] == View()
    }

    ghost function Now(): Moment
      reads this
    {
      Moment(states, events, |schedule|)
    }

    // The access was step e of the run.
    twostate predicate Acts(e: Event)
      reads this
    {
      Valid() && Took(e, old(Now()), Now())
    }

    // The thread worked through the rounds used, except one at most if it owes one.
    twostate predicate Works(me: Owner, debt: nat)
      reads this
    {
      Valid() && Worked(me, debt, old(Now()), Now()) && |schedule| <= |old(schedule)|
    }

    // What was executed stays so.
    twostate predicate Grew()
      reads this
    {
      old(executed) <= executed
    }

    // The others took what they could of their next round.
    twostate predicate Played(me: Owner)
      reads this
    {
      View() == After(old(View()), me, if old(schedule) == [] then [] else old(schedule)[0])
    }

    // What a thread relies on while the others move.
    twostate predicate Stayed(me: Owner)
      reads this
    {
      match me
      case TheWorker(w) => w < |old(threads)| ==> At(threads, w, old(threads)[w])
      case TheManager =>
        && manager == old(manager) && |threads| == |old(threads)|
        && (manager.Reap? ==> workers == old(workers) && joined == old(joined))
      case TheCloser =>
        && closer == old(closer)
        && (closer.JoinWorkers? ==> workers == old(workers) && joined == old(joined))
    }

    predicate IsDone(w: Worker)
      reads this
    {
      w < |threads| && threads[w].Done?
    }

    predicate AllDone()
      reads this
    {
      forall w :: 0 <= w < |threads| ==> IsDone(w)
    }

    lemma Sound()
      requires Valid()
      ensures Inv(View()) && |states| == |events| + 1 && states[|events|] == View()
    {
      RunInv(states, events, |events|);
    }

    // The access done was step e: it joins the run.
    ghost method Record(was: Pool, e: Event)
      requires IsRun(states, events) && states[|events|] == was
      requires Enabled(was, e) && View() == Apply(was, e)
      modifies `states, `events
      ensures Valid() && Took(e, old(Now()), Now())
    {
      hide Enabled, Apply;
      states, events := states + [View()], events + [e];
    }

    // The thread waits now.
    lemma Waits(me: Owner, m: Moment)
      requires Valid() && Blocked(me, View()) && Worked(me, 1, m, Now())
      ensures Worked(me, 0, m, Now())
    {
      assert Blocked(me, states[|events|]);
    }

    // The thread to reap is not over.
    lemma NotReady()
      requires manager.Reap? && !ManagerReady(View())
      ensures Blocked(TheManager, View())
    {
    }

    // The ids to reap have handles.
    lemma ToReap()
      requires Valid() && manager.Reap?
      ensures forall id :: id in manager.ids ==> id in workers
    {
      Sound();
      forall id | id in manager.ids ensures id in workers {
        assert id in Graveyard(View());
      }
    }

    // And then no more.
    lemma Reaped()
      requires Valid() && manager.Reap?
      ensures forall id :: id in joined ==> id !in workers
    {
      Sound();
      PartsDistinct(workers, joined);
    }

    // A task executed is executed once.
    lemma OnceEach(task: Task, i: nat)
      requires Valid() && i < |executed| && executed[i] == task
      ensures multiset(executed)[task] == 1 && task !in executed[..i]
    {
      Sound();
      AtMostOnce(states, events, |events|, task);
      assert executed == executed[..i] + executed[i..];
    }

    // What a shutdown begun at m, in state s, leaves behind.
    lemma Drained(m: Moment, s: Pool)
      requires Valid() && Worked(TheCloser, 0, m, Now()) && closer == Returned
      requires Saw(m, s) && s.running
      ensures AllDone()
      ensures forall t :: t in s.accepted ==> multiset(executed)[t] == 1
    {
      Sound();
      ReturnedState(View());
      assert states[|m.events|] == s;
      forall t | t in s.accepted ensures multiset(executed)[t] == 1 {
        Drain(states, events, |m.events|, t);
      }
    }

    // The fields are what the run has come to.
    lemma Here()
      requires Valid()
      ensures Saw(Now(), View())
      ensures View().queue == taskQueue && View().live == liveThreads && View().busy == busyThreads
      ensures View().max == maxThreads && View().running == running && View().accepted == accepted
    {
      Sound();
    }

    constructor (core: nat, max: nat, capacity: nat, schedule: seq<seq<Event>>)
      requires 1 <= core <= max < SIZE_MOD
      ensures IsInit(View()) && Valid() && events == [] && this.schedule == schedule
      ensures coreThreads == core && maxThreads == max && this.capacity == capacity
    {
      coreThreads, maxThreads, this.capacity := core, max, capacity;
      running, acceptingTasks := true, true;
      liveThreads, busyThreads, completedTasks := 0, 0, 0;
      taskQueue, queueShut := [], false;
      threads, workers, exitedThreadIds := [], [], [];
      manager, closer, submitting := CtorSpawn(0), Idle, {};
      accepted, popped, executed, rejected, joined, mark := [], [], [], {}, [], None;
      this.schedule := schedule;
      new;
      states, events := [View()], [];
    }

    // The program's constructor: it refuses bad sizes by throwing, and creates the
    // core workers.
    static method Make(core: nat, max: nat, capacity: nat, schedule: seq<seq<Event>>) returns (pool: ThreadPool?)
      requires max < SIZE_MOD
      ensures pool == null <==> core == 0 || max < core
      ensures pool != null ==>
        && fresh(pool) && pool.Valid() && pool.manager == LoopTest
        && pool.coreThreads == core && pool.maxThreads == max && |pool.threads| == core
    {
      if core == 0 { return null; }
      if max < core { return null; }
      pool := new ThreadPool(core, max, capacity, schedule);
      hide IsRun;
      for i := 0 to core
        invariant fresh(pool) && pool.Valid() && pool.manager == CtorSpawn(i) && |pool.threads| == i
        invariant pool.coreThreads == core && pool.maxThreads == max
      {
        pool.CreateWorker();
      }
      pool.Others(TheManager);
      pool.EndCreation();
    }

    // The creating thread is about to create a worker.
    predicate Creating()
      reads this
    {
      (manager.CtorSpawn? && manager.made < coreThreads) || (manager.Create? && manager.left > 0)
    }

    // create_worker: the thread is started first and counted next.
    method CreateWorker()
      requires Valid() && Creating()
      modifies this
      ensures Works(TheManager, 0) && |threads| == |old(threads)| + 1
      ensures manager == if old(manager).CtorSpawn? then CtorSpawn(old(manager).made + 1)
                         else Create(old(manager).left - 1)
    {
      Composes(TheManager, Now());
      hide Valid, Now, Took, Worked, Waited, Grew, Played, View;
      Others(TheManager);
      StartThread();
      Others(TheManager);
      CountThread();
    }

    // ------------------------------------------------------------ worker_loop

    // Worker w: it ends only when it is over or the schedule is.
    method WorkerLoop(w: Worker) returns (finished: bool)
      requires Valid() && At(threads, w, PopFor)
      modifies this
      ensures Works(TheWorker(w), 0)
      ensures if finished then IsDone(w) else schedule == []
    {
      var me := TheWorker(w);
      Composes(me, Now());
      hide Valid, Now, Took, Worked, Waited, Grew, Played, View;
      while schedule != []
        invariant Works(me, 0) && At(threads, w, PopFor)
        decreases |schedule|
      {
        Others(me);
        var task := PopTask(w);
        if task.Some? {
          ExecuteTask(w, task.value);
          continue;
        }
        var left, back := LeaveOrStay(w);
        if !back { return left; }
      }
      finished := false;
    }

    // Nothing came: leave a closed pool, stay among few or after a short wait, or
    // else retire.
    method LeaveOrStay(w: Worker) returns (left: bool, back: bool)
      requires Valid() && At(threads, w, WorkerPc.LoadRunning)
      modifies this
      ensures Works(TheWorker(w), 0)
      ensures (left ==> IsDone(w)) && (back ==> At(threads, w, PopFor)) && (!left && !back ==> schedule == [])
    {
      var me := TheWorker(w);
      Composes(me, Now());
      hide Valid, Now, Took, Worked, Waited, Grew, Played, View;
      var leave := ShouldLeave(w);
      if leave {
        Others(me);
        SubtractSelf(w);
        return true, false;
      }
      Others(me);
      var few := TestLive(w);
      if few { return false, true; }
      var short: bool := *;
      Others(me);
      TestIdle(w, short);
      if short { return false, true; }
      left, back := Retire(w);
    }

    // !running_.load() && task_queue_.empty()
    method ShouldLeave(w: Worker) returns (leave: bool)
      requires Valid() && At(threads, w, WorkerPc.LoadRunning)
      modifies this
      ensures Works(TheWorker(w), 0) && At(threads, w, if leave then Leaving else WorkerPc.LoadLive)
    {
      hide Valid, Now, Took, Worked, Waited, Grew, Played, View;
      Composes(TheWorker(w), Now());
      Others(TheWorker(w));
      var isRunning := LoadRunning(w);
      leave := false;
      if !isRunning {
        Others(TheWorker(w));
        leave := TestEmpty(w);
      }
    }

    // The task has run, now and never before, and the worker is back.
    method ExecuteTask(w: Worker, task: Task)
      requires Valid() && At(threads, w, Popped(task))
      modifies this
      ensures Works(TheWorker(w), 0) && At(threads, w, PopFor)
      ensures task !in old(executed) && multiset(executed)[task] == 1
    {
      var me := TheWorker(w);
      Composes(me, Now());
      hide Valid, Now, Took, Worked, Waited, Played, View;
      ghost var i := Perform(w, task);
      Others(me);
      LeaveTask(w);
      Others(me);
      CountTask(w);
      OnceEach(task, i);
    }

    // Up to the end of the task.
    method Perform(w: Worker, task: Task) returns (ghost i: nat)
      requires Valid() && At(threads, w, Popped(task))
      modifies this
      ensures Works(TheWorker(w), 0) && At(threads, w, Ran)
      ensures task !in old(executed) && i < |executed| && executed[i] == task
    {
      hide Valid, Now, Took, Worked, Waited, Played, View;
      Composes(TheWorker(w), Now());
      Others(TheWorker(w));
      EnterTask(w, task);
      Others(TheWorker(w));
      i := |executed|;
      RunTask(w, task);
      OnceEach(task, i);
    }

    // The retirement loop: it ends with the worker retired and gone, or back in the
    // outer loop, unless the schedule ends first.
    method Retire(w: Worker) returns (retired: bool, back: bool)
      requires Valid() && At(threads, w, ReloadLive)
      modifies this
      ensures Works(TheWorker(w), 0)
      ensures (retired ==> At(threads, w, Done(true))) && (back ==> At(threads, w, PopFor))
      ensures !retired && !back ==> schedule == []
    {
      var me := TheWorker(w);
      Composes(me, Now());
      hide Valid, Now, Took, Worked, Waited, Grew, Played, View;
      retired, back := false, false;
      Others(me);
      var currLive: nat := LoadLive(w);
      while currLive > coreThreads && schedule != []
        invariant Works(me, 0) && At(threads, w, Cas(currLive))
        decreases |schedule|
      {
        var spared: bool := *;
        var won;
        Others(me);
        won, currLive := CompareExchange(w, currLive, spared);
        if won {
          Publish(w);
          return true, false;
        }
      }
      if currLive <= coreThreads {
        Others(me);
        StayInLoop(w, currLive);
        back := true;
      }
    }

    // Its id is published, and the thread returns.
    method Publish(w: Worker)
      requires Valid() && At(threads, w, Retired)
      modifies this
      ensures Works(TheWorker(w), 0) && At(threads, w, Done(true))
    {
      hide Valid, Now, Took, Worked, Waited, Grew, Played, View;
      Composes(TheWorker(w), Now());
      Others(TheWorker(w));
      PublishExit(w);
      Others(TheWorker(w));
      ReturnRetired(w);
    }

    // ------------------------------------------------- the worker's accesses

    // pop_for: a task, or nothing in time.
    method PopTask(w: Worker) returns (task: Option<Task>)
      requires Valid() && At(threads, w, PopFor)
      modifies `threads, `taskQueue, `popped, `states, `events
      ensures Acts(WorkerMoves(w, true))
      ensures task.Some? ==> At(threads, w, Popped(task.value)) && [task.value] + taskQueue == old(taskQueue)
      ensures task.None? ==> old(taskQueue) == [] && At(threads, w, WorkerPc.LoadRunning)
    {
      hide IsRun, Took;
      ghost var was := View();
      if |taskQueue| > 0 {
        task := Some(taskQueue[0]);
        threads := threads[w := Popped(taskQueue[0])];
        popped := popped + [taskQueue[0]];
        taskQueue := taskQueue[1..];
      } else {
        task := None;
        threads := threads[w := WorkerPc.LoadRunning];
      }
      Record(was, WorkerMoves(w, true));
    }

    // execute_task's four accesses.
    method EnterTask(w: Worker, task: Task)
      requires Valid() && At(threads, w, Popped(task))
      modifies `threads, `busyThreads, `states, `events
      ensures Acts(WorkerMoves(w, true))
      ensures At(threads, w, Running(task))
    {
      hide IsRun, Took;
      ghost var was := View();
      busyThreads := Inc(busyThreads);
      threads := threads[w := Running(task)];
      Record(was, WorkerMoves(w, true));
    }

    // The task itself.
    method RunTask(w: Worker, task: Task)
      requires Valid() && At(threads, w, Running(task))
      modifies `threads, `executed, `states, `events
      ensures Acts(WorkerMoves(w, true))
      ensures At(threads, w, Ran) && executed == old(executed) + [task]
    {
      hide IsRun, Took;
      ghost var was := View();
      executed := executed + [task];
      threads := threads[w := Ran];
      Record(was, WorkerMoves(w, true));
    }

    // It is over, normally or by an exception the worker swallows.
    method LeaveTask(w: Worker)
      requires Valid() && At(threads, w, Ran)
      modifies `threads, `busyThreads, `states, `events
      ensures Acts(WorkerMoves(w, true))
      ensures At(threads, w, Uncounted)
    {
      hide IsRun, Took;
      ghost var was := View();
      busyThreads := Dec(busyThreads);
      threads := threads[w := Uncounted];
      Record(was, WorkerMoves(w, true));
    }

    // And counted.
    method CountTask(w: Worker)
      requires Valid() && At(threads, w, Uncounted)
      modifies `threads, `completedTasks, `states, `events
      ensures Acts(WorkerMoves(w, true))
      ensures At(threads, w, PopFor) && completedTasks == old(completedTasks) + 1
    {
      hide IsRun, Took;
      ghost var was := View();
      completedTasks := completedTasks + 1;
      threads := threads[w := PopFor];
      Record(was, WorkerMoves(w, true));
    }

    // running_.load()
    method LoadRunning(w: Worker) returns (isRunning: bool)
      requires Valid() && At(threads, w, WorkerPc.LoadRunning)
      modifies `threads, `states, `events
      ensures Acts(WorkerMoves(w, true))
      ensures isRunning == running && At(threads, w, if isRunning then WorkerPc.LoadLive else WorkerPc.TestEmpty)
    {
      hide IsRun, Took;
      ghost var was := View();
      isRunning := running;
      threads := threads[w := if isRunning then WorkerPc.LoadLive else WorkerPc.TestEmpty];
      Record(was, WorkerMoves(w, true));
    }

    // task_queue_.empty()
    method TestEmpty(w: Worker) returns (empty: bool)
      requires Valid() && At(threads, w, WorkerPc.TestEmpty)
      modifies `threads, `mark, `states, `events
      ensures Acts(WorkerMoves(w, true))
      ensures empty == (taskQueue == []) && At(threads, w, if empty then Leaving else WorkerPc.LoadLive)
    {
      hide IsRun, Took;
      ghost var was := View();
      empty := |taskQueue| == 0;
      if empty && mark.None? { mark := Some(|accepted|); }
      threads := threads[w := if empty then Leaving else WorkerPc.LoadLive];
      Record(was, WorkerMoves(w, true));
    }

    // live_threads_.load() <= core_threads_
    method TestLive(w: Worker) returns (few: bool)
      requires Valid() && At(threads, w, WorkerPc.LoadLive)
      modifies `threads, `states, `events
      ensures Acts(WorkerMoves(w, true))
      ensures few == (liveThreads <= coreThreads) && At(threads, w, if few then PopFor else WorkerPc.TestIdle)
    {
      hide IsRun, Took;
      ghost var was := View();
      few := liveThreads <= coreThreads;
      threads := threads[w := if few then PopFor else WorkerPc.TestIdle];
      Record(was, WorkerMoves(w, true));
    }

    // The idle time, which may come out short or not.
    method TestIdle(w: Worker, short: bool)
      requires Valid() && At(threads, w, WorkerPc.TestIdle)
      modifies `threads, `states, `events
      ensures Acts(WorkerMoves(w, short))
      ensures At(threads, w, if short then PopFor else ReloadLive)
    {
      hide IsRun, Took;
      ghost var was := View();
      threads := threads[w := if short then PopFor else ReloadLive];
      Record(was, WorkerMoves(w, short));
    }

    // curr_live = live_threads_.load()
    method LoadLive(w: Worker) returns (currLive: nat)
      requires Valid() && At(threads, w, ReloadLive)
      modifies `threads, `states, `events
      ensures Acts(WorkerMoves(w, true))
      ensures currLive == liveThreads && At(threads, w, Cas(currLive))
    {
      hide IsRun, Took;
      ghost var was := View();
      currLive := liveThreads;
      threads := threads[w := Cas(currLive)];
      Record(was, WorkerMoves(w, true));
    }

    // compare_exchange_weak; spared: it does not fail spuriously. A failure reloads the
    // value.
    method CompareExchange(w: Worker, currLive: nat, spared: bool) returns (won: bool, currLive': nat)
      requires Valid() && At(threads, w, Cas(currLive)) && currLive > coreThreads
      modifies `threads, `liveThreads, `states, `events
      ensures Acts(WorkerMoves(w, spared))
      ensures won == (old(liveThreads) == currLive && spared)
      ensures won ==> liveThreads == currLive - 1 && At(threads, w, Retired)
      ensures !won ==> currLive' == liveThreads && At(threads, w, Cas(currLive'))
    {
      hide IsRun, Took;
      ghost var was := View();
      won := liveThreads == currLive && spared;
      if won {
        liveThreads := currLive - 1;
        currLive' := currLive;
        threads := threads[w := Retired];
      } else {
        currLive' := liveThreads;
        threads := threads[w := Cas(currLive')];
      }
      Record(was, WorkerMoves(w, spared));
    }

    // The retirement loop ends without retiring.
    method StayInLoop(w: Worker, currLive: nat)
      requires Valid() && At(threads, w, Cas(currLive)) && currLive <= coreThreads
      modifies `threads, `states, `events
      ensures Acts(WorkerMoves(w, true))
      ensures At(threads, w, PopFor)
    {
      hide IsRun, Took;
      ghost var was := View();
      threads := threads[w := PopFor];
      Record(was, WorkerMoves(w, true));
    }

    // exited_thread_ids_.push_back, under its mutex.
    method PublishExit(w: Worker)
      requires Valid() && At(threads, w, Retired)
      modifies `threads, `exitedThreadIds, `states, `events
      ensures Acts(WorkerMoves(w, true))
      ensures At(threads, w, Published) && exitedThreadIds == old(exitedThreadIds) + [w]
    {
      hide IsRun, Took;
      ghost var was := View();
      exitedThreadIds := exitedThreadIds + [w];
      threads := threads[w := Published];
      Record(was, WorkerMoves(w, true));
    }

    // The retired worker returns.
    method ReturnRetired(w: Worker)
      requires Valid() && At(threads, w, Published)
      modifies `threads, `states, `events
      ensures Acts(WorkerMoves(w, true))
      ensures At(threads, w, Done(true))
    {
      hide IsRun, Took;
      ghost var was := View();
      threads := threads[w := Done(true)];
      Record(was, WorkerMoves(w, true));
    }

    // live_threads_.fetch_sub(1), after the loop.
    method SubtractSelf(w: Worker)
      requires Valid() && At(threads, w, Leaving)
      modifies `threads, `liveThreads, `states, `events
      ensures Acts(WorkerMoves(w, true))
      ensures At(threads, w, Done(false))
    {
      hide IsRun, Took;
      ghost var was := View();
      liveThreads := Dec(liveThreads);
      threads := threads[w := Done(false)];
      Record(was, WorkerMoves(w, true));
    }

    // ----------------------------------------------------------- manager_loop

    // The manager: it ends only when it has stopped or the schedule ends.
    method ManagerLoop() returns (finished: bool)
      requires Valid() && manager == LoopTest
      modifies this
      ensures Works(TheManager, 0)
      ensures if finished then manager == Stopped else schedule == []
    {
      hide Valid, Now, Took, Worked, Waited, Grew, Played, CalledFor, Blocked, View;
      Composes(TheManager, Now());
      while schedule != []
        invariant Works(TheManager, 0) && manager == LoopTest
        decreases |schedule|
      {
        Others(TheManager);
        var isRunning := TestRunning();
        if !isRunning { return true; }
        Others(TheManager);
        isRunning := TestRunning();
        if !isRunning { return true; }
        var _ := Expand();
        var reaped := ReapExited();
        if !reaped { return false; }
      }
      finished := false;
    }

    // As many workers as three reads call for.
    method Expand() returns (growCount: nat)
      requires Valid() && manager == ManagerPc.ReadPending
      modifies this
      ensures Works(TheManager, 0)
      ensures manager == Swap && |threads| == |old(threads)| + growCount
      ensures CalledFor(Now().states, |old(Now()).events|, growCount)
    {
      hide Valid, Now, Took, Worked, Waited, Grew, Played, View, CalledFor;
      growCount := Decide();
      ghost var m := Now();
      Composes(TheManager, m);
      for i := 0 to growCount
        invariant Valid() && manager == Create(growCount - i) && |threads| == |old(threads)| + i
        invariant Worked(TheManager, 0, m, Now()) && |schedule| <= |old(schedule)|
      {
        CreateWorker();
      }
      Others(TheManager);
      EndCreation();
      CalledForSince(m, Now(), |old(Now()).events|, growCount);
      Composes(TheManager, old(Now()));
    }

    // The three reads, and the arithmetic on them.
    method Decide() returns (growCount: nat)
      requires Valid() && manager == ManagerPc.ReadPending
      modifies this
      ensures Works(TheManager, 0)
      ensures manager == Create(growCount) && |threads| == |old(threads)|
      ensures CalledFor(Now().states, |old(Now()).events|, growCount)
    {
      ghost var m := Now();
      hide Valid, Now, Took, Worked, Waited, Grew, Played, View, Saw, Warrants, CalledFor;
      Others(TheManager);
      var pending := ReadPending();
      Here();
      ghost var a, x := Now(), View();
      Others(TheManager);
      var live := ReadLive(pending);
      Here();
      ghost var b, y := Now(), View();
      Others(TheManager);
      growCount := ReadBusy(pending, live);
      Here();
      Composes(TheManager, m);
      Composes(TheManager, a);
      Composes(TheManager, b);
      Readings(m, a, b, Now(), x, y, View(), growCount);
    }

    // The published ids are taken over and reaped.
    method ReapExited() returns (reaped: bool)
      requires Valid() && manager == Swap
      modifies this
      ensures Works(TheManager, 0)
      ensures if reaped then manager == LoopTest else schedule == [] && Blocked(TheManager, View())
    {
      hide Valid, Now, Took, Worked, Waited, Grew, Played, View, Blocked;
      Composes(TheManager, Now());
      Others(TheManager);
      var idsToReap := TakeExited();
      if |idsToReap| == 0 { return true; }
      reaped := ReapAll(idsToReap);
    }

    // Join and erase the handle of each id, waiting for its thread.
    method ReapAll(idsToReap: seq<Worker>) returns (reaped: bool)
      requires Valid() && manager == Reap(idsToReap)
      modifies this
      ensures Works(TheManager, 0)
      ensures reaped ==> manager == LoopTest && joined == old(joined) + idsToReap
      ensures reaped ==> forall id :: id in idsToReap ==> id in old(workers) && id !in workers
      ensures !reaped ==> schedule == [] && Blocked(TheManager, View())
    {
      hide Valid, Now, Took, Worked, Waited, Grew, Played, View, Blocked, ManagerReady;
      Composes(TheManager, Now());
      ToReap();
      var ids := idsToReap;
      while |ids| > 0
        invariant Works(TheManager, 0) && manager == Reap(ids) && joined + ids == old(joined) + idsToReap
        decreases |ids|, |schedule|
      {
        Others(TheManager);
        if ManagerReady(View()) {
          ReapOne(ids);
          assert joined + ids[1..] == old(joined) + idsToReap;
          ids := ids[1..];
        } else {
          NotReady();
          Waits(TheManager, old(Now()));
          if schedule == [] { return false; }
        }
      }
      Others(TheManager);
      Reaped();
      EndReaping();
      reaped := true;
    }

    // ------------------------------------------------ the manager's accesses

    // create_worker starts the thread, and stores its handle.
    method StartThread()
      requires Valid() && Creating()
      modifies `manager, `threads, `workers, `states, `events
      ensures Acts(ManagerMoves)
      ensures threads == old(threads) + [PopFor] && workers == old(workers) + [|old(threads)|]
      ensures manager == if old(manager).CtorSpawn? then CtorCount(old(manager).made) else Count(old(manager).left - 1)
    {
      hide IsRun, Took;
      ghost var was := View();
      workers := workers + [|threads|];
      threads := threads + [PopFor];
      manager := if manager.CtorSpawn? then CtorCount(manager.made) else Count(manager.left - 1);
      Record(was, ManagerMoves);
    }

    // And adds it to live_threads_.
    method CountThread()
      requires Valid() && (manager.CtorCount? || manager.Count?)
      modifies `manager, `liveThreads, `states, `events
      ensures Acts(ManagerMoves)
      ensures manager == if old(manager).CtorCount? then CtorSpawn(old(manager).made + 1) else Create(old(manager).left)
    {
      hide IsRun, Took;
      ghost var was := View();
      liveThreads := Inc(liveThreads);
      manager := if manager.CtorCount? then CtorSpawn(manager.made + 1) else Create(manager.left);
      Record(was, ManagerMoves);
    }

    // No more workers to create.
    method EndCreation()
      requires Valid() && ((manager.CtorSpawn? && manager.made >= coreThreads) || manager == Create(0))
      modifies `manager, `states, `events
      ensures Acts(ManagerMoves)
      ensures manager == if old(manager).CtorSpawn? then LoopTest else Swap
    {
      hide IsRun, Took;
      ghost var was := View();
      manager := if manager.CtorSpawn? then LoopTest else Swap;
      Record(was, ManagerMoves);
    }

    // running_.load(), before and after the manager's sleep.
    method TestRunning() returns (isRunning: bool)
      requires Valid() && (manager.LoopTest? || manager.SleepTest?)
      modifies `manager, `states, `events
      ensures Acts(ManagerMoves)
      ensures isRunning == running
      ensures manager == if !isRunning then Stopped
                         else if old(manager).LoopTest? then SleepTest else ManagerPc.ReadPending
    {
      hide IsRun, Took;
      ghost var was := View();
      isRunning := running;
      manager := if !isRunning then Stopped else if manager.LoopTest? then SleepTest else ManagerPc.ReadPending;
      Record(was, ManagerMoves);
    }

    // task_queue_.size()
    method ReadPending() returns (pending: nat)
      requires Valid() && manager.ReadPending?
      modifies `manager, `states, `events
      ensures Acts(ManagerMoves)
      ensures pending == |taskQueue| && manager == ManagerPc.ReadLive(pending)
    {
      hide IsRun, Took;
      ghost var was := View();
      pending := |taskQueue|;
      manager := ManagerPc.ReadLive(pending);
      Record(was, ManagerMoves);
    }

    // live_threads_.load()
    method ReadLive(pending: nat) returns (live: nat)
      requires Valid() && manager == ManagerPc.ReadLive(pending)
      modifies `manager, `states, `events
      ensures Acts(ManagerMoves)
      ensures live == liveThreads && manager == ManagerPc.ReadBusy(pending, live)
    {
      hide IsRun, Took;
      ghost var was := View();
      live := liveThreads;
      manager := ManagerPc.ReadBusy(pending, live);
      Record(was, ManagerMoves);
    }

    // busy_threads_.load(), and what follows from the three.
    method ReadBusy(pending: nat, live: nat) returns (growCount: nat)
      requires Valid() && manager == ManagerPc.ReadBusy(pending, live)
      modifies `manager, `states, `events
      ensures Acts(ManagerMoves)
      ensures Warrants(pending, live, busyThreads, maxThreads, growCount) && manager == Create(growCount)
    {
      hide IsRun, Took;
      ghost var was := View();
      growCount := GrowCount(pending, live, busyThreads);
      manager := Create(growCount);
      Record(was, ManagerMoves);
    }

    // The arithmetic of one round of the manager: it wants two workers when tasks
    // outnumber workers by two, one when every worker is busy, and never more
    // than max allows.
    method GrowCount(pending: nat, live: nat, busy: nat) returns (growCount: nat)
      ensures growCount == Growth(pending, live, busy, maxThreads)
      ensures pending <= live && (busy < live || pending == 0) ==> growCount == 0
      ensures live >= maxThreads ==> growCount == 0
      ensures 0 < pending <= live <= busy && live < maxThreads ==> growCount == 1
      ensures live < pending && live < maxThreads ==>
        growCount == if pending - live == 1 || maxThreads - live == 1 then 1 else 2
    {
      var needExpand := false;
      if live > 0 && busy >= live && pending > 0 { needExpand := true; }
      if pending > live { needExpand := true; }
      growCount := 0;
      if needExpand && live < maxThreads {
        var canCreate := maxThreads - live;
        growCount := if pending > live then (if pending - live < 2 then pending - live else 2) else 1;
        growCount := if growCount < canCreate then growCount else canCreate;
      }
    }

    // The manager takes over the published ids.
    method TakeExited() returns (ids: seq<Worker>)
      requires Valid() && manager.Swap?
      modifies `manager, `exitedThreadIds, `states, `events
      ensures Acts(ManagerMoves)
      ensures ids == old(exitedThreadIds) && exitedThreadIds == []
      ensures manager == if ids == [] then LoopTest else Reap(ids)
    {
      hide IsRun, Took;
      ghost var was := View();
      ids := exitedThreadIds;
      exitedThreadIds := [];
      manager := if |ids| == 0 then LoopTest else Reap(ids);
      Record(was, ManagerMoves);
    }

    // It joins and erases one of them; join waits until the thread is done.
    method ReapOne(ids: seq<Worker>)
      requires Valid() && ids != [] && manager == Reap(ids) && ManagerReady(View())
      modifies `manager, `workers, `joined, `states, `events
      ensures Acts(ManagerMoves)
      ensures manager == Reap(ids[1..])
      ensures joined == old(joined) + [ids[0]] && workers == Without(old(workers), ids[0])
    {
      Sound();
      ReapFindsHandle(View());
      hide Inv;
      hide IsRun, Took;
      ghost var was := View();
      JoinAndErase(ids[0]);
      manager := Reap(ids[1..]);
      Record(was, ManagerMoves);
    }

    // None is left.
    method EndReaping()
      requires Valid() && manager == Reap([])
      modifies `manager, `states, `events
      ensures Acts(ManagerMoves)
      ensures manager == LoopTest
    {
      hide IsRun, Took;
      ghost var was := View();
      manager := LoopTest;
      Record(was, ManagerMoves);
    }

    // find_if over the handles; their number when there is none.
    method Handle(id: Worker) returns (i: nat)
      ensures i <= |workers| && (i == |workers| <==> id !in workers)
      ensures i < |workers| ==> workers[i] == id && workers[..i] + workers[i + 1..] == Without(workers, id)
    {
      i := 0;
      while i < |workers| && workers[i] != id
        invariant i <= |workers| && id !in workers[..i]
      {
        i := i + 1;
      }
      WithoutAt(workers, i, id);
    }

    // The handle with this id, if there is one, is joined and leaves the vector.
    method JoinAndErase(id: Worker)
      modifies `workers, `joined
      ensures id in old(workers) ==> workers == Without(old(workers), id) && joined == old(joined) + [id]
      ensures id !in old(workers) ==> workers == old(workers) && joined == old(joined)
    {
      var found := Handle(id);
      if found < |workers| {
        joined := joined + [id];
        workers := workers[..found] + workers[found + 1..];
      }
    }

    // ---------------------------------------------------------------- shutdown

    // One call. Only the call that wins the exchange does anything; it returns with
    // every thread over and joined and every task accepted before it executed once,
    // unless the schedule ends while it waits in join.
    method Shutdown() returns (won: bool, finished: bool)
      requires Valid() && !InConstructor(View())
      modifies this
      ensures Works(TheCloser, 0) && won == old(running)
      ensures !won ==> View() == old(View()) && events == old(events)
      ensures won && finished ==> closer == Returned && workers == [] && AllDone()
      ensures won && finished ==> forall t :: t in old(accepted) ==> multiset(executed)[t] == 1
      ensures won && !finished ==> schedule == [] && Blocked(TheCloser, View())
    {
      hide Valid, Now, Took, Worked, Waited, Grew, Played, View, Saw, Blocked, InConstructor, AllDone;
      Composes(TheCloser, Now());
      won := running;
      if !won { return false, true; }
      Here();
      WinShutdown();
      StopIntake();
      finished := AwaitManager();
      if finished {
        JoinManager();
        finished := JoinAll();
        if finished { Drained(old(Now()), old(View())); }
      }
    }

    // No more tasks: accepting_tasks_ off, then the queue shut.
    method StopIntake()
      requires Valid() && closer == Flipped
      modifies this
      ensures Works(TheCloser, 0) && closer == QueueClosed
    {
      Composes(TheCloser, Now());
      hide Valid, Now, Took, Worked, Waited, Grew, Played, View;
      Others(TheCloser);
      StopAccepting();
      Others(TheCloser);
      CloseQueue();
    }

    // join() on the manager, up to its return.
    method AwaitManager() returns (over: bool)
      requires Valid() && closer == QueueClosed
      modifies this
      ensures Works(TheCloser, if over then 1 else 0) && closer == QueueClosed
      ensures if over then manager.Stopped? else schedule == [] && Blocked(TheCloser, View())
    {
      Composes(TheCloser, Now());
      hide Valid, Now, Took, Worked, Waited, Grew, Played;
      Others(TheCloser);
      while !manager.Stopped? && schedule != []
        invariant Works(TheCloser, 1) && closer == QueueClosed
        decreases |schedule|
      {
        Waits(TheCloser, old(Now()));
        Others(TheCloser);
      }
      over := manager.Stopped?;
      if !over { Waits(TheCloser, old(Now())); }
    }

    // Every worker that has a handle, in order, waiting for each.
    method JoinAll() returns (finished: bool)
      requires Valid() && closer == JoinWorkers(0)
      modifies this
      ensures Works(TheCloser, 0)
      ensures finished ==> closer == Returned && workers == [] && joined == old(joined) + old(workers)
      ensures !finished ==> schedule == [] && Blocked(TheCloser, View())
    {
      Composes(TheCloser, Now());
      hide Valid, Now, Took, Worked, Waited, Grew, Played;
      var next := 0;
      while next < |workers|
        invariant Works(TheCloser, 0) && closer == JoinWorkers(next)
        invariant workers == old(workers) && next <= |workers| && joined == old(joined) + workers[..next]
        decreases |workers| - next, |schedule|
      {
        Others(TheCloser);
        if IsDone(workers[next]) {
          JoinWorker(next);
          next := next + 1;
        } else {
          Waits(TheCloser, old(Now()));
          if schedule == [] { return false; }
        }
      }
      ClearWorkers(next);
      finished := true;
    }

    // The exchange on running_, won.
    method WinShutdown()
      requires Valid() && running && !InConstructor(View())
      modifies `running, `closer, `states, `events
      ensures Acts(CloserMoves)
      ensures !running && closer == Flipped
    {
      Sound();
      assert closer.Idle?;
      hide Inv;
      hide IsRun, Took;
      ghost var was := View();
      running := false;
      closer := Flipped;
      Record(was, CloserMoves);
    }

    // accepting_tasks_.store(false)
    method StopAccepting()
      requires Valid() && closer.Flipped?
      modifies `acceptingTasks, `closer, `states, `events
      ensures Acts(CloserMoves)
      ensures !acceptingTasks && closer == AcceptingOff
    {
      hide IsRun, Took;
      ghost var was := View();
      acceptingTasks := false;
      closer := AcceptingOff;
      Record(was, CloserMoves);
    }

    // task_queue_.shutdown()
    method CloseQueue()
      requires Valid() && closer.AcceptingOff?
      modifies `queueShut, `closer, `states, `events
      ensures Acts(CloserMoves)
      ensures queueShut && closer == QueueClosed
    {
      hide IsRun, Took;
      ghost var was := View();
      queueShut := true;
      closer := QueueClosed;
      Record(was, CloserMoves);
    }

    // manager_.join()
    method JoinManager()
      requires Valid() && closer.QueueClosed? && manager.Stopped?
      modifies `closer, `states, `events
      ensures Acts(CloserMoves)
      ensures closer == JoinWorkers(0)
    {
      hide IsRun, Took;
      ghost var was := View();
      closer := JoinWorkers(0);
      Record(was, CloserMoves);
    }

    // One worker joined, when it is done.
    method JoinWorker(next: nat)
      requires Valid() && closer == JoinWorkers(next) && next < |workers| && IsDone(workers[next])
      modifies `closer, `joined, `states, `events
      ensures Acts(CloserMoves)
      ensures closer == JoinWorkers(next + 1) && joined == old(joined) + [workers[next]]
    {
      hide IsRun, Took;
      ghost var was := View();
      joined := joined + [workers[next]];
      closer := JoinWorkers(next + 1);
      Record(was, CloserMoves);
    }

    // workers_.clear(), and the return.
    method ClearWorkers(next: nat)
      requires Valid() && closer == JoinWorkers(next) && next >= |workers|
      modifies `closer, `workers, `states, `events
      ensures Acts(CloserMoves)
      ensures closer == Returned && workers == []
    {
      hide IsRun, Took;
      ghost var was := View();
      workers := [];
      closer := Returned;
      Record(was, CloserMoves);
    }

    // submit: the test of accepting_tasks_, then the push.
    method SubmitTest(t: Task) returns (refused: bool)
      requires Valid() && Enabled(View(), TestAccepting(t))
      modifies `submitting, `rejected, `states, `events
      ensures Acts(TestAccepting(t))
      ensures refused == !acceptingTasks
      ensures submitting == old(submitting) + (if refused then {} else {t})
    {
      hide IsRun;
      ghost var was := View();
      refused := !acceptingTasks;
      if refused {
        rejected := rejected + {t};
      } else {
        submitting := submitting + {t};
      }
      Record(was, TestAccepting(t));
    }

    method SubmitPush(t: Task) returns (refused: bool)
      requires Valid() && Enabled(View(), Push(t))
      modifies `submitting, `rejected, `taskQueue, `accepted, `states, `events
      ensures Acts(Push(t))
      ensures refused == queueShut && taskQueue == old(taskQueue) + (if refused then [] else [t])
    {
      hide IsRun;
      ghost var was := View();
      refused := queueShut;
      submitting := submitting - {t};
      if refused {
        rejected := rejected + {t};
      } else {
        taskQueue := taskQueue + [t];
        accepted := accepted + [t];
      }
      Record(was, Push(t));
    }

    // ---------------------------------------------------- the other threads

    // One round of the schedule: whatever steps in it the other threads can take.
    method Others(me: Owner)
      requires Valid()
      modifies this
      ensures Valid() && Stayed(me) && Grew() && Played(me) && Waited(me, old(Now()), Now())
      ensures |schedule| == if old(schedule) == [] then 0 else |old(schedule)| - 1
    {
      if schedule == [] { return; }
      var steps := schedule[0];
      schedule := schedule[1..];
      assert steps[..0] == [];
      hide IsRun, Plain, Mine, Enabled, Apply, View, Waited;
      for i := 0 to |steps|
        invariant Valid() && Stayed(me) && Grew() && Waited(me, old(Now()), Now())
        invariant schedule == old(schedule)[1..] && View() == After(old(View()), me, steps[..i])
      {
        AfterOne(old(View()), me, steps, i);
        var e := Plain(View(), steps[i]);
        if !Mine(me, e) && Enabled(View(), e) {
          OthersWait(me, old(Now()), Now(), Apply(View(), e), e);
          MoveOther(me, e);
        }
      }
      assert steps[..|steps|] == steps;
    }

    // Any step any thread can take.
    method Move(e: Event)
      requires Valid() && Enabled(View(), e) && Plain(View(), e) == e
      modifies this
      ensures Acts(e) && View() == Apply(old(View()), e) && schedule == old(schedule)
    {
      hide IsRun, Took;
      match e {
        case WorkerMoves(w, choice) => MoveWorker(w, choice);
        case ManagerMoves => MoveManager();
        case CloserMoves => MoveCloser();
        case TestAccepting(t) => var _ := SubmitTest(t);
        case Push(t) => var _ := SubmitPush(t);
      }
      Stepped(e);
    }

    // A step of another thread.
    method MoveOther(me: Owner, e: Event)
      requires Valid() && Enabled(View(), e) && Plain(View(), e) == e && !Mine(me, e)
      modifies this
      ensures Acts(e) && Stayed(me) && Grew() && View() == Apply(old(View()), e)
      ensures states == old(states) + [View()]
      ensures schedule == old(schedule)
    {
      Sound();
      OthersKeep(View(), e, me);
      hide Inv, Apply, Enabled, IsRun;
      Move(e);
    }

    // What the access did is what the step does.
    twostate lemma Stepped(e: Event)
      requires old(Valid()) && Acts(e)
      ensures Enabled(old(View()), e) && View() == Apply(old(View()), e)
    {
      hide Enabled, Apply, IsInit;
      assert states[|old(events)|] == old(View());
    }

    method MoveWorker(w: Worker, choice: bool)
      requires Valid() && w < |threads| && !threads[w].Done?
      requires Plain(View(), WorkerMoves(w, choice)) == WorkerMoves(w, choice)
      modifies this
      ensures Acts(WorkerMoves(w, choice)) && schedule == old(schedule)
    {
      hide IsRun, Took;
      match threads[w]
      case PopFor => var _ := PopTask(w);
      case Popped(task) => EnterTask(w, task);
      case Running(task) => RunTask(w, task);
      case Ran => LeaveTask(w);
      case Uncounted => CountTask(w);
      case LoadRunning => var _ := LoadRunning(w);
      case TestEmpty => var _ := TestEmpty(w);
      case LoadLive => var _ := TestLive(w);
      case TestIdle => TestIdle(w, choice);
      case ReloadLive => var _ := LoadLive(w);
      case Cas(currLive) =>
        if currLive > coreThreads {
          var _, _ := CompareExchange(w, currLive, choice);
        } else {
          StayInLoop(w, currLive);
        }
      case Retired => PublishExit(w);
      case Published => ReturnRetired(w);
      case Leaving => SubtractSelf(w);
    }

    method MoveManager()
      requires Valid() && ManagerReady(View())
      modifies this
      ensures Acts(ManagerMoves) && schedule == old(schedule)
    {
      hide IsRun, Took;
      match manager
      case CtorSpawn(made) => if made < coreThreads { StartThread(); } else { EndCreation(); }
      case CtorCount(_) => CountThread();
      case LoopTest => var _ := TestRunning();
      case SleepTest => var _ := TestRunning();
      case ReadPending => var _ := ReadPending();
      case ReadLive(pending) => var _ := ReadLive(pending);
      case ReadBusy(pending, live) => var _ := ReadBusy(pending, live);
      case Create(left) => if left > 0 { StartThread(); } else { EndCreation(); }
      case Count(_) => CountThread();
      case Swap => var _ := TakeExited();
      case Reap(ids) => if |ids| > 0 { ReapOne(ids); } else { EndReaping(); }
    }

    method MoveCloser()
      requires Valid() && CloserReady(View())
      modifies this
      ensures Acts(CloserMoves) && schedule == old(schedule)
    {
      hide IsRun, Took;
      match closer
      case Idle => WinShutdown();
      case Flipped => StopAccepting();
      case AcceptingOff => CloseQueue();
      case QueueClosed => JoinManager();
      case JoinWorkers(next) => if next < |workers| { JoinWorker(next); } else { ClearWorkers(next); }
    }
  }

  // A step of another thread leaves a thread what it relies on.
  lemma OthersKeep(s: Pool, e: Event, me: Owner)
    requires ControlInv(s) && Enabled(s, e) && !Mine(me, e)
    ensures var s' := Apply(s, e);
      && s.executed <= s'.executed
      && match me
         case TheWorker(w) => w < |s.workers| ==> w < |s'.workers| && s'.workers[w] == s.workers[w]
         case TheManager =>
           && s'.manager == s.manager && |s'.workers| == |s.workers|
           && (s.manager.Reap? ==> s'.handles == s.handles && s'.joined == s.joined)
         case TheCloser =>
           && s'.closer == s.closer
           && (s.closer.JoinWorkers? ==> s'.handles == s.handles && s'.joined == s.joined)
  {
  }

  lemma AfterOne(s: Pool, me: Owner, steps: seq<Event>, i: nat)
    requires i < |steps|
    ensures
      var before := After(s, me, steps[..i]);
      var e := Plain(before, steps[i]);
      After(s, me, steps[..i + 1]) == if !Mine(me, e) && Enabled(before, e) then Apply(before, e) else before
  {
    hide Plain, Mine, Enabled, Apply;
    assert steps[..i + 1][..i] == steps[..i];
  }

  lemma OthersWait(me: Owner, m: Moment, n: Moment, next: Pool, e: Event)
    requires Waited(me, m, n) && !Mine(me, e)
    ensures Waited(me, m, n.(states := n.states + [next], events := n.events + [e]))
  {
    assert (n.events + [e])[..|n.events|] == n.events;
  }

  // Work since m, one round or access more.
  lemma Composes(me: Owner, m: Moment)
    ensures Worked(me, 0, m, m)
    ensures forall a, b :: Worked(me, 0, m, a) && Waited(me, a, b) ==> Worked(me, 1, m, b)
    ensures forall d, a, b, e :: Worked(me, d, m, a) && d <= 1 && Took(e, a, b) && Mine(me, e) ==> Worked(me, 0, m, b)
    ensures forall d, a, b :: Worked(me, 0, m, a) && Worked(me, d, a, b) ==> Worked(me, d, m, b)
  {
    forall d, a, b | Worked(me, d, m, a) && Since(a, b) && BlockedSince(me, a.states, |m.events|)
      ensures Worked(me, 0, m, b)
    {
      var i :| |m.events| <= i < |a.states| && Blocked(me, a.states[i]);
      assert Blocked(me, b.states[i]);
    }
    forall a, b, e | Took(e, a, b) ensures Own(me, b.events) == Own(me, a.events) + if Mine(me, e) then 1 else 0 {
      assert b.events[..|a.events|] == a.events;
    }
    forall d, a, b | Worked(me, 0, m, a) && Worked(me, d, a, b) && BlockedSince(me, b.states, |a.events|)
      ensures Worked(me, 0, m, b)
    {
      var i :| |a.events| <= i < |b.states| && Blocked(me, b.states[i]);
    }
  }

  lemma Readings(m: Moment, a: Moment, b: Moment, c: Moment, x: Pool, y: Pool, z: Pool, growCount: nat)
    requires Worked(TheManager, 0, m, a) && Worked(TheManager, 0, a, b) && Worked(TheManager, 0, b, c)
    requires Saw(a, x) && Saw(b, y) && Saw(c, z) && Warrants(|x.queue|, y.live, z.busy, z.max, growCount)
    ensures CalledFor(c.states, |m.events|, growCount)
  {
    assert c.states[|a.events|] == b.states[|a.events|] == x;
    assert c.states[|b.events|] == y && c.states[|c.events|] == z;
    assert |m.events| <= |a.events| <= |b.events| <= |c.events|;
  }

  lemma CalledForSince(m: Moment, n: Moment, from: nat, growCount: nat)
    requires CalledFor(m.states, from, growCount) && Worked(TheManager, 0, m, n)
    ensures CalledFor(n.states, from, growCount)
  {
    var a, b, c :| from <= a <= b <= c < |m.states| &&
      Warrants(|m.states[a].queue|, m.states[b].live, m.states[c].busy, m.states[c].max, growCount);
    assert n.states[a] == m.states[a] && n.states[b] == m.states[b] && n.states[c] == m.states[c];
  }

  // Erasing the first match is Without.
  lemma {:induction false} WithoutAt(xs: seq<Worker>, i: nat, x: Worker)
    requires i <= |xs| && x !in xs[..i] && (i < |xs| ==> xs[i] == x)
    ensures i < |xs| ==> Without(xs, x) == xs[..i] + xs[i + 1..]
    decreases i
  {
    if 0 < i < |xs| {
      assert xs[1..][..i - 1] == xs[..i][1..];
      WithoutAt(xs[1..], i - 1, x);
      assert [xs[0]] + (xs[1..][..i - 1] + xs[1..][i..]) == xs[..i] + xs[i + 1..];
    }
  }
}
