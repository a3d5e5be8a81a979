// What every run of the thread pool guarantees, whatever the interleaving.
module ThreadPoolTheorems {
  import opened Sequences
  import opened ThreadPoolSteps
  import opened ThreadPoolInvariant

  // ----------------------------------------------------------------- history

  // Accepted tasks stay accepted, in order; the mark is set once, to the number
  // of tasks accepted at that moment.
  ghost predicate Extends(s: Pool, s': Pool) {
    && s.accepted <= s'.accepted
    && (s.mark.Some? ==> s'.mark == s.mark)
    && (s.mark.None? && s'.mark.Some? ==> |s.accepted| <= s'.mark.value)
  }

  lemma HistoryStep(s: Pool, e: Event)
    requires Enabled(s, e)
    ensures Extends(s, Apply(s, e))
  {
  }

  lemma LastStepExtends(states: seq<Pool>, events: seq<Event>, j: nat)
    requires IsRun(states, events) && j < |events|
    ensures Extends(states[j], states[j + 1])
  {
    HistoryStep(states[j], events[j]);
  }

  lemma ExtendsTransitive(a: Pool, b: Pool, c: Pool)
    requires Extends(a, b) && Extends(b, c)
    ensures Extends(a, c)
  {
  }

  lemma {:induction false} History(states: seq<Pool>, events: seq<Event>, i: nat, j: nat)
    requires IsRun(states, events) && i <= j < |states|
    ensures Extends(states[i], states[j])
    decreases j
  {
    hide *;
    RunLength(states, events);
    if i == j {
      ExtendsItself(states[i]);
    } else {
      History(states, events, i, j - 1);
      LastStepExtends(states, events, j - 1);
      ExtendsTransitive(states[i], states[j - 1], states[j]);
    }
  }

  lemma RunLength(states: seq<Pool>, events: seq<Event>)
    requires IsRun(states, events)
    ensures |states| == |events| + 1
  {
  }

  lemma ExtendsItself(s: Pool)
    ensures Extends(s, s)
  {
  }

  // ------------------------------------------------------------------- drain

  // When the winning shutdown has returned, every thread ever started is over
  // and at least one of them saw the closed pool with an empty queue.
  lemma ReturnedState(s: Pool)
    requires Inv(s) && s.closer.Returned?
    ensures forall w :: 0 <= w < |s.workers| ==> s.workers[w].Done?
    ensures s.mark.Some?
    ensures forall t :: t in s.popped <==> t in s.executed
  {
    forall w | 0 <= w < |s.workers| ensures s.workers[w].Done? {
      assert w in Unjoined(s) + s.joined;
    }
    CountZero(s.workers, IsActive);
  }

  // Drain: a task accepted while the pool runs (indeed, before any worker has
  // left it) has been executed exactly once when the winning shutdown returns.
  lemma Drain(states: seq<Pool>, events: seq<Event>, k: nat, t: Task)
    requires IsRun(states, events) && k < |states|
    requires states[k].running || states[k].mark.None?
    requires t in states[k].accepted
    requires states[|events|].closer.Returned?
    ensures multiset(states[|events|].executed)[t] == 1
  {
    var s := states[|events|];
    RunInv(states, events, k);
    RunInv(states, events, |events|);
    ReturnedState(s);
    History(states, events, k, |events|);
    var i :| 0 <= i < |states[k].accepted| && states[k].accepted[i] == t;
    assert s.accepted[i] == t && i < |s.popped|;
    assert s.popped[i] == t;
    MultiplicityOne(s.executed, t);
  }

  // No run executes a task twice, or one that was not accepted.
  lemma AtMostOnce(states: seq<Pool>, events: seq<Event>, k: nat, t: Task)
    requires IsRun(states, events) && k < |states|
    ensures multiset(states[k].executed)[t] <= 1
    ensures t in states[k].executed ==> t in states[k].accepted && t !in states[k].queue
  {
    RunInv(states, events, k);
    var s := states[k];
    MultiplicityOne(s.executed, t);
    if t in s.executed {
      var i :| 0 <= i < |s.popped| && s.popped[i] == t;
      assert s.accepted[i] == t;
      forall j | 0 <= j < |s.queue| ensures s.queue[j] != t {
        assert s.accepted[|s.popped| + j] == s.queue[j];
      }
    }
  }

  // Exactly which tasks a shutdown loses: at its return a task is executed iff
  // it is accepted and no longer queued.
  lemma LostIffQueued(states: seq<Pool>, events: seq<Event>, t: Task)
    requires IsRun(states, events) && states[|events|].closer.Returned?
    requires t in states[|events|].accepted
    ensures multiset(states[|events|].executed)[t] == (if t in states[|events|].queue then 0 else 1)
  {
    var s := states[|events|];
    RunInv(states, events, |events|);
    ReturnedState(s);
    AtMostOnce(states, events, |events|, t);
    MultiplicityOne(s.executed, t);
  }

  // -------------------------------------------------------------- pool sizes

  // After construction and while the pool runs, live_threads_ stays within
  // [core_threads_, max_threads_] and counts exactly the active workers already
  // added; at all times the active workers, counted or not, number at most
  // max_threads_.
  lemma PoolSizeBounds(states: seq<Pool>, events: seq<Event>, k: nat)
    requires IsRun(states, events) && k < |states|
    ensures var s := states[k];
      && Active(s) <= s.max
      && (s.running && !InConstructor(s) ==>
            s.core <= s.live <= s.max && s.live == Active(s) - Uncounted1(s.manager))
  {
    RunInv(states, events, k);
  }

  // The live_threads_ register wraps below zero exactly while a started worker
  // is uncounted and every worker has gone.
  lemma LiveWraps(states: seq<Pool>, events: seq<Event>, k: nat)
    requires IsRun(states, events) && k < |states|
    ensures var s := states[k];
      s.live != Active(s) - Uncounted1(s.manager) <==> Active(s) == 0 && Uncounted1(s.manager) == 1
  {
    RunInv(states, events, k);
  }

  // How many workers three readings call for: as many as tasks exceed workers, but
  // at most two; one when there is work and every worker is busy; none otherwise;
  // and never more than max allows.
  predicate Warrants(pending: nat, live: nat, busy: nat, max: nat, n: nat) {
    && (live >= max ==> n == 0)
    && (pending <= live && (busy < live || pending == 0) ==> n == 0)
    && (0 < pending <= live <= busy && live < max ==> n == 1)
    && (live < pending && live < max ==>
          && 1 <= n <= 2 && n <= pending - live && n <= max - live
          && (n == 1 ==> pending - live == 1 || max - live == 1))
  }

  // The manager's arithmetic grants exactly that.
  lemma GrowthWarranted(pending: nat, live: nat, busy: nat, max: nat, n: nat)
    ensures Warrants(pending, live, busy, max, n) <==> n == Growth(pending, live, busy, max)
  {
  }

  // Only the manager moves the manager.
  lemma ManagerWaits(states: seq<Pool>, events: seq<Event>, k: nat)
    requires IsRun(states, events) && 0 < k < |states|
    ensures events[k - 1].ManagerMoves? ==> states[k].manager == NextManagerPc(states[k - 1])
    ensures !events[k - 1].ManagerMoves? ==> states[k].manager == states[k - 1].manager
    ensures states[k].max == states[k - 1].max
  {
  }

  lemma {:induction false} PendingRead(states: seq<Pool>, events: seq<Event>, k: nat) returns (a: nat)
    requires IsRun(states, events) && k < |states| && states[k].manager.ReadLive?
    ensures a < k && |states[a].queue| == states[k].manager.pending
  {
    ManagerWaits(states, events, k);
    if events[k - 1].ManagerMoves? {
      a := k - 1;
    } else {
      a := PendingRead(states, events, k - 1);
    }
  }

  lemma {:induction false} LiveRead(states: seq<Pool>, events: seq<Event>, k: nat) returns (a: nat, b: nat)
    requires IsRun(states, events) && k < |states| && states[k].manager.ReadBusy?
    ensures a < b < k && |states[a].queue| == states[k].manager.pending && states[b].live == states[k].manager.liveSeen
  {
    ManagerWaits(states, events, k);
    if events[k - 1].ManagerMoves? {
      b := k - 1;
      a := PendingRead(states, events, b);
    } else {
      a, b := LiveRead(states, events, k - 1);
    }
  }

  // The workers the manager has still to start in this round, the one just started
  // included.
  function StillToStart(m: ManagerPc): nat {
    if m.Create? then m.left else if m.Count? then m.left + 1 else 0
  }

  predicate IsStarting(m: ManagerPc) { m.Create? || m.Count? }

  lemma StartingStep(s: Pool)
    requires IsStarting(NextManagerPc(s))
    ensures s.manager.ReadBusy? ==>
      Warrants(s.manager.pending, s.manager.liveSeen, s.busy, s.max, StillToStart(NextManagerPc(s)))
    ensures !s.manager.ReadBusy? ==>
      IsStarting(s.manager) && StillToStart(NextManagerPc(s)) <= StillToStart(s.manager)
  {
    if s.manager.ReadBusy? {
      var m := s.manager;
      GrowthWarranted(m.pending, m.liveSeen, s.busy, s.max, Growth(m.pending, m.liveSeen, s.busy, s.max));
    }
  }

  lemma StartsLate(states: seq<Pool>, events: seq<Event>, k: nat)
    requires IsRun(states, events) && k < |states| && IsStarting(states[k].manager)
    ensures 0 < k <= |events|
  {
  }

  // In no run does the manager start a worker, after construction, that three
  // readings, made earlier and one after the other, did not call for.
  lemma {:induction false} StartsAsWarranted(states: seq<Pool>, events: seq<Event>, k: nat)
    returns (a: nat, b: nat, c: nat, n: nat)
    requires IsRun(states, events) && k < |states| && IsStarting(states[k].manager)
    ensures a < b < c < k && states[c].max == states[k].max
    ensures Warrants(|states[a].queue|, states[b].live, states[c].busy, states[c].max, n)
    ensures StillToStart(states[k].manager) <= n
  {
    StartsLate(states, events, k);
    ManagerWaits(states, events, k);
    hide IsRun, Warrants, Growth, NextManagerPc, StillToStart, IsStarting;
    if events[k - 1].ManagerMoves? { StartingStep(states[k - 1]); }
    if events[k - 1].ManagerMoves? && states[k - 1].manager.ReadBusy? {
      c, n := k - 1, StillToStart(states[k].manager);
      a, b := LiveRead(states, events, c);
    } else {
      a, b, c, n := StartsAsWarranted(states, events, k - 1);
    }
  }

  // ---------------------------------------------------------------- counters

  // Conservation and order: every accepted task is queued, in a worker's hands
  // and not yet counted, or counted completed; and tasks leave the queue in the
  // order they were accepted.
  lemma Conservation(states: seq<Pool>, events: seq<Event>, k: nat)
    requires IsRun(states, events) && k < |states|
    ensures var s := states[k];
      && |s.accepted| == |s.queue| + CountIf(s.workers, IsUnfinished) + s.completed
      && s.popped <= s.accepted
      && NoDup(s.popped)
  {
    RunInv(states, events, k);
    var s := states[k];
    forall i, j | 0 <= i < j < |s.popped| ensures s.popped[i] != s.popped[j] {
      assert s.accepted[i] == s.popped[i] && s.accepted[j] == s.popped[j];
    }
  }

  // No task is accepted twice.
  lemma AcceptedOnce(states: seq<Pool>, events: seq<Event>, k: nat)
    requires IsRun(states, events) && k < |states|
    ensures forall i, j :: 0 <= i < j < |states[k].accepted| ==> states[k].accepted[i] != states[k].accepted[j]
  {
    RunInv(states, events, k);
  }

  // The exact form of "busy_threads_ <= live_threads_": it holds unless a worker
  // is started but uncounted and every active worker, that one included, is busy.
  lemma BusyVersusLive(states: seq<Pool>, events: seq<Event>, k: nat)
    requires IsRun(states, events) && k < |states|
    ensures var s := states[k];
      && s.busy <= Active(s)
      && (s.busy <= s.live <==>
            !(Uncounted1(s.manager) == 1 && Active(s) > 0 && CountIf(s.workers, IsBusy) == Active(s)))
  {
    RunInv(states, events, k);
    BusyAreActive(states[k]);
  }

  // ----------------------------------------------------------------- handles

  // Nobody joins a thread twice or before it is over; when shutdown has
  // returned, every thread ever started has been joined exactly once.
  lemma JoinedExactlyOnce(states: seq<Pool>, events: seq<Event>, k: nat, w: Worker)
    requires IsRun(states, events) && k < |states|
    ensures var s := states[k];
      && multiset(s.joined)[w] <= 1
      && (w in s.joined ==> w < |s.workers| && s.workers[w].Done?)
      && (s.closer.Returned? ==> s.handles == [] && multiset(s.joined)[w] == if w < |s.workers| then 1 else 0)
  {
    RunInv(states, events, k);
    var s := states[k];
    PartsDistinct(Unjoined(s), s.joined);
    MultiplicityOne(s.joined, w);
    if s.closer.Returned? {
      assert w in Unjoined(s) + s.joined <==> w < |s.workers|;
    }
  }

  // The manager reaps only threads that won their retirement and have nothing
  // left to do but return, so its join waits on no lock.
  lemma ReapsOnlyRetired(states: seq<Pool>, events: seq<Event>, k: nat)
    requires IsRun(states, events) && k < |states|
    requires states[k].manager.Reap? && states[k].manager.ids != []
    ensures var s := states[k]; var id := s.manager.ids[0];
      && id in s.handles && id < |s.workers|
      && (s.workers[id].Published? || s.workers[id] == Done(true))
  {
    RunInv(states, events, k);
    ReapFindsHandle(states[k]);
  }

  // workers_mtx_ is held by the manager's reaping, or by shutdown's last phase,
  // never by both.
  lemma WorkersLockExclusive(states: seq<Pool>, events: seq<Event>, k: nat)
    requires IsRun(states, events) && k < |states|
    requires states[k].closer.JoinWorkers?
    ensures states[k].manager.Stopped?
  {
    RunInv(states, events, k);
  }

  // No deadlock on the way down: until the winning shutdown has returned, some
  // thread of the pool (not a submitter) can move, and not by a spurious failure.
  lemma ShutdownNeverStuck(states: seq<Pool>, events: seq<Event>, k: nat)
    requires IsRun(states, events) && k < |states|
    requires !states[k].running && !states[k].closer.Returned?
    ensures exists e: Event :: !e.TestAccepting? && !e.Push? && !Spurious(states[k], e) && Enabled(states[k], e)
  {
    RunInv(states, events, k);
    var _ := SomeoneMoves(states[k]);
  }

  lemma SomeoneMoves(s: Pool) returns (e: Event)
    requires Inv(s) && !s.running && !s.closer.Returned?
    ensures !e.TestAccepting? && !e.Push? && !Spurious(s, e) && Enabled(s, e)
  {
    if CloserReady(s) {
      e := CloserMoves;
    } else if s.closer.QueueClosed? {
      e := ManagerMoves;
      if Reaping(s) {
        ReapFindsHandle(s);
        if !ManagerReady(s) { e := WorkerMoves(s.manager.ids[0], true); }
      }
    } else {
      var w := s.handles[s.closer.next];
      assert w in Unjoined(s) by { assert Unjoined(s)[0] == w; }
      assert w in Unjoined(s) + s.joined;
      e := WorkerMoves(w, true);
    }
  }
}
