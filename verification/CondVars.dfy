// Condition variables as two sets of threads.
module CondVars {
  import opened Sequences

  type Thread = nat

  // parked: asleep, no notification received. woken: notified, timed out or
  // spuriously awake, but not yet back inside the mutex.
  datatype CondVar = CondVar(parked: set<Thread>, woken: set<Thread>) {
    // The caller releases the mutex and falls asleep.
    function Park(t: Thread): CondVar { CondVar(parked + {t}, woken - {t}) }
    // The caller is back inside the mutex and goes on.
    function Resume(t: Thread): CondVar { CondVar(parked, woken - {t}) }
    function Wake(t: Thread): CondVar { CondVar(parked - {t}, woken + {t}) }
    function NotifyAll(): CondVar { CondVar({}, woken + parked) }
  }

  // notify_one wakes one parked thread, any one, if there is one.
  ghost predicate NotifyOne(c: CondVar, c': CondVar) {
    if c.parked == {} then c' == c else exists t :: t in c.parked && c' == c.Wake(t)
  }

  lemma WokenGrows(c: CondVar, c': CondVar)
    requires NotifyOne(c, c') && c.parked !! c.woken
    ensures c'.parked !! c'.woken
    ensures c.parked == {} ==> c' == c
    ensures c.parked != {} ==> |c'.woken| == |c.woken| + 1
    ensures c'.parked <= c.parked
  {
    if c.parked != {} {
      var t :| t in c.parked && c' == c.Wake(t);
      assert t !in c.woken;
    }
  }

  lemma WakeKeeps(c: CondVar, t: Thread)
    requires t in c.parked && c.parked !! c.woken
    ensures c.Wake(t).parked !! c.Wake(t).woken && |c.Wake(t).woken| == |c.woken| + 1
  {
  }

  // notify_one wakes whichever sleeper the system picks.
  method Notify(c: CondVar) returns (c': CondVar)
    ensures NotifyOne(c, c')
  {
    if |c.parked| == 0 { return c; }
    var t := Pick(c.parked);
    c' := c.Wake(t);
  }
}
