// The thread pool as an interleaved step system. Every step is one atomic
// access of the program: one load, store or compare-exchange of an atomic, one
// critical section of the task queue or of a vector's mutex, or one join.
module ThreadPoolSteps {
  import opened Sequences

  type Task = nat
  type Worker = nat   // position in spawn order; stands for the std::thread::id

  // Number of values of a size_t register.
  const SIZE_MOD: nat := 0x1_0000_0000_0000_0000

  function Inc(x: nat): nat { if x + 1 == SIZE_MOD then 0 else x + 1 }

  function Dec(x: nat): nat { if x == 0 then SIZE_MOD - 1 else x - 1 }

  // Where a worker is in worker_loop and execute_task.
  datatype WorkerPc =
    | PopFor              // about to call pop_for
    | Popped(task: Task)  // pop_for succeeded, before busy_threads_ += 1
    | Running(task: Task) // inside execute_task
    | Ran                 // the task returned, before busy_threads_ -= 1
    | Uncounted           // before completed_tasks_ += 1
    | LoadRunning         // pop_for failed, before running_.load()
    | TestEmpty           // saw running_ false, before empty()
    | LoadLive            // before the first live_threads_.load()
    | TestIdle            // before comparing the idle time
    | ReloadLive          // before curr_live = live_threads_.load()
    | Cas(curr: nat)      // in the retirement loop
    | Retired             // won the exchange, before publishing its id
    | Published           // id published, about to return
    | Leaving             // broke out of the loop, before live_threads_ -= 1
    | Done(retired: bool)

  // Where the creating thread is: first the constructor, then manager_loop.
  datatype ManagerPc =
    | CtorSpawn(made: nat)
    | CtorCount(made: nat)
    | LoopTest
    | SleepTest
    | ReadPending
    | ReadLive(pending: nat)
    | ReadBusy(pending: nat, liveSeen: nat)
    | Create(left: nat)
    | Count(left: nat)    // worker started, before live_threads_ += 1
    | Swap
    | Reap(ids: seq<Worker>)
    | Stopped

  // Where the shutdown call that won the exchange on running_ is.
  datatype CloserPc =
    | Idle
    | Flipped
    | AcceptingOff
    | QueueClosed
    | JoinWorkers(next: nat)
    | Returned

  datatype Pool = Pool(
    core: nat, max: nat, capacity: nat,
    running: bool, accepting: bool,
    live: nat, busy: nat, completed: nat,
    queue: seq<Task>, queueShut: bool,
    workers: seq<WorkerPc>,
    handles: seq<Worker>,        // workers_
    exited: seq<Worker>,         // exited_thread_ids_
    manager: ManagerPc, closer: CloserPc,
    pushing: set<Task>,          // submit calls past the accepting_tasks_ test
    // history
    accepted: seq<Task>, popped: seq<Task>, executed: seq<Task>,
    rejected: set<Task>, joined: seq<Worker>,
    mark: Option<nat>)           // tasks accepted when a worker first found the closed pool empty

  datatype Event =
    | WorkerMoves(w: Worker, choice: bool)
    | ManagerMoves
    | CloserMoves
    | TestAccepting(t: Task)
    | Push(t: Task)

  predicate IsInit(s: Pool) {
    && 1 <= s.core <= s.max < SIZE_MOD
    && s == Pool(s.core, s.max, s.capacity, true, true, 0, 0, 0, [], false, [], [], [],
                 CtorSpawn(0), Idle, {}, [], [], [], {}, [], None)
  }

  predicate InConstructor(s: Pool) { s.manager.CtorSpawn? || s.manager.CtorCount? }

  // Where a worker goes next. choice resolves what the program leaves open:
  // whether the idle time is still short, and whether compare_exchange_weak is
  // spared a spurious failure.
  function NextPc(s: Pool, pc: WorkerPc, choice: bool): WorkerPc {
    match pc
    case PopFor => if s.queue == [] then LoadRunning else Popped(s.queue[0])
    case Popped(t) => Running(t)
    case Running(t) => Ran
    case Ran => Uncounted
    case Uncounted => PopFor
    case LoadRunning => if s.running then LoadLive else TestEmpty
    case TestEmpty => if s.queue == [] then Leaving else LoadLive
    case LoadLive => if s.live <= s.core then PopFor else TestIdle
    case TestIdle => if choice then PopFor else ReloadLive
    case ReloadLive => Cas(s.live)
    case Cas(curr) =>
      if curr <= s.core then PopFor else if WinsCas(s, pc, choice) then Retired else Cas(s.live)
    case Retired => Published
    case Published => Done(true)
    case Leaving => Done(false)
    case Done(_) => pc
  }

  predicate WinsCas(s: Pool, pc: WorkerPc, choice: bool) {
    pc.Cas? && pc.curr > s.core && s.live == pc.curr && choice
  }

  predicate Popping(s: Pool, pc: WorkerPc) { pc.PopFor? && s.queue != [] }

  // One step of worker w: its next place, and the one shared object it touches.
  function WorkerStep(s: Pool, w: Worker, choice: bool): Pool
    requires w < |s.workers|
  {
    var pc := s.workers[w];
    s.(workers := s.workers[w := NextPc(s, pc, choice)],
       queue := if Popping(s, pc) then s.queue[1..] else s.queue,
       popped := if Popping(s, pc) then s.popped + [s.queue[0]] else s.popped,
       executed := if pc.Running? then s.executed + [pc.task] else s.executed,
       busy := if pc.Popped? then Inc(s.busy) else if pc.Ran? then Dec(s.busy) else s.busy,
       completed := if pc.Uncounted? then s.completed + 1 else s.completed,
       live := if pc.Leaving? || WinsCas(s, pc, choice) then Dec(s.live) else s.live,
       exited := if pc.Retired? then s.exited + [w] else s.exited,
       mark := if pc.TestEmpty? && s.queue == [] && s.mark.None? then Some(|s.accepted|) else s.mark)
  }

  // How many workers one round of the manager decides to create, from its
  // three reads.
  function Growth(pending: nat, live: nat, busy: nat, max: nat): nat {
    var needExpand := (live > 0 && busy >= live && pending > 0) || pending > live;
    if needExpand && live < max then
      var wanted := if pending > live then (if pending - live < 2 then pending - live else 2) else 1;
      if wanted < max - live then wanted else max - live
    else 0
  }

  function NextManagerPc(s: Pool): ManagerPc {
    match s.manager
    case CtorSpawn(i) => if i < s.core then CtorCount(i) else LoopTest
    case CtorCount(i) => CtorSpawn(i + 1)
    case LoopTest => if s.running then SleepTest else Stopped
    case SleepTest => if s.running then ReadPending else Stopped
    case ReadPending => ReadLive(|s.queue|)
    case ReadLive(p) => ReadBusy(p, s.live)
    case ReadBusy(p, l) => Create(Growth(p, l, s.busy, s.max))
    case Create(k) => if k == 0 then Swap else Count(k - 1)
    case Count(k) => Create(k)
    case Swap => if s.exited == [] then LoopTest else Reap(s.exited)
    case Reap(ids) => if ids == [] then LoopTest else Reap(ids[1..])
    case Stopped => Stopped
  }

  // How many workers the manager may still start.
  function Planned(m: ManagerPc): nat {
    match m
    case CtorSpawn(_) => 0
    case CtorCount(_) => 0
    case ReadPending => 2
    case ReadLive(_) => 2
    case ReadBusy(_, _) => 2
    case Create(k) => k
    case Count(k) => k
    case _ => 0
  }

  // The step starts a thread (in create_worker).
  predicate Spawning(s: Pool) {
    (s.manager.CtorSpawn? && s.manager.made < s.core) || (s.manager.Create? && s.manager.left > 0)
  }

  // The step joins and erases the handle of the first id to reap.
  predicate Reaping(s: Pool) {
    s.manager.Reap? && s.manager.ids != [] && s.manager.ids[0] in s.handles
  }

  // join() blocks until the thread is done.
  predicate ManagerReady(s: Pool) {
    && !s.manager.Stopped?
    && (Reaping(s) ==> s.manager.ids[0] < |s.workers| && s.workers[s.manager.ids[0]].Done?)
  }

  function ManagerStep(s: Pool): Pool {
    s.(manager := NextManagerPc(s),
       workers := if Spawning(s) then s.workers + [PopFor] else s.workers,
       handles := if Spawning(s) then s.handles + [|s.workers|]
                  else if Reaping(s) then Without(s.handles, s.manager.ids[0]) else s.handles,
       live := if s.manager.CtorCount? || s.manager.Count? then Inc(s.live) else s.live,
       exited := if s.manager.Swap? then [] else s.exited,
       joined := if Reaping(s) then s.joined + [s.manager.ids[0]] else s.joined)
  }

  predicate CloserReady(s: Pool) {
    match s.closer
    case Idle => s.running && !InConstructor(s)
    case QueueClosed => s.manager.Stopped?
    case JoinWorkers(i) =>
      i < |s.handles| ==> s.handles[i] < |s.workers| && s.workers[s.handles[i]].Done?
    case Returned => false
    case _ => true
  }

  function NextCloserPc(s: Pool): CloserPc {
    match s.closer
    case Idle => Flipped
    case Flipped => AcceptingOff
    case AcceptingOff => QueueClosed
    case QueueClosed => JoinWorkers(0)
    case JoinWorkers(i) => if i < |s.handles| then JoinWorkers(i + 1) else Returned
    case Returned => Returned
  }

  function CloserStep(s: Pool): Pool {
    s.(closer := NextCloserPc(s),
       running := s.running && !s.closer.Idle?,
       accepting := s.accepting && !s.closer.Flipped?,
       queueShut := s.queueShut || s.closer.AcceptingOff?,
       joined := if s.closer.JoinWorkers? && s.closer.next < |s.handles|
                 then s.joined + [s.handles[s.closer.next]] else s.joined,
       handles := if s.closer.JoinWorkers? && s.closer.next >= |s.handles| then [] else s.handles)
  }

  // A submit call brings a task no earlier call brought.
  predicate FreshTask(s: Pool, t: Task) {
    t !in s.pushing && t !in s.accepted && t !in s.rejected
  }

  function TestAcceptingStep(s: Pool, t: Task): Pool {
    if s.accepting then s.(pushing := s.pushing + {t}) else s.(rejected := s.rejected + {t})
  }

  // push() waits until the queue is shut or has room.
  predicate PushReady(s: Pool, t: Task) {
    t in s.pushing && (s.queueShut || s.capacity == 0 || |s.queue| < s.capacity)
  }

  function PushStep(s: Pool, t: Task): Pool {
    if s.queueShut then s.(pushing := s.pushing - {t}, rejected := s.rejected + {t})
    else s.(pushing := s.pushing - {t}, queue := s.queue + [t], accepted := s.accepted + [t])
  }

  predicate Enabled(s: Pool, e: Event) {
    match e
    case WorkerMoves(w, _) => w < |s.workers| && !s.workers[w].Done?
    case ManagerMoves => ManagerReady(s)
    case CloserMoves => CloserReady(s)
    case TestAccepting(t) => !InConstructor(s) && FreshTask(s, t)
    case Push(t) => PushReady(s, t)
  }

  function Apply(s: Pool, e: Event): Pool
    requires Enabled(s, e)
  {
    match e
    case WorkerMoves(w, choice) => WorkerStep(s, w, choice)
    case ManagerMoves => ManagerStep(s)
    case CloserMoves => CloserStep(s)
    case TestAccepting(t) => TestAcceptingStep(s, t)
    case Push(t) => PushStep(s, t)
  }

  // compare_exchange_weak fails although the value is the expected one.
  predicate Spurious(s: Pool, e: Event) {
    e.WorkerMoves? && e.w < |s.workers| && s.workers[e.w].Cas? && s.workers[e.w].curr > s.core
    && s.live == s.workers[e.w].curr && !e.choice
  }

  // A run: an initial state and one enabled event after another, in any order.
  predicate IsRun(states: seq<Pool>, events: seq<Event>) {
    && |states| == |events| + 1
    && IsInit(states[0])
    && forall i :: 0 <= i < |events| ==>
         Enabled(states[i], events[i]) && states[i + 1] == Apply(states[i], events[i])
  }
}
