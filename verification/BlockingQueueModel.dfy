// The bounded blocking queue as a monitor: one mutex, two condition variables,
// and any number of producers, consumers and closers. A step is one critical
// section, one notification made outside the mutex, or one thread waking by
// itself (a timeout or a spurious wakeup).
module BlockingQueueModel {

  import opened CondVars

  datatype Monitor<T> = Monitor(
    capacity: nat, queue: seq<T>, shut: bool,
    notEmpty: CondVar, notFull: CondVar,
    closersEmpty: nat,  // shutdown calls that still owe notEmpty a notify_all
    closersFull: nat,   // shutdown calls that still owe notFull a notify_all
    entered: seq<T>, left: seq<T>)

  datatype Outcome<T> = Waiting | Refused | TimedOut | Pushed | Got(value: T)

  predicate IsInit<T(==)>(m: Monitor<T>) {
    m == Monitor(m.capacity, [], false, CondVar({}, {}), CondVar({}, {}), 0, 0, [], [])
  }

  predicate HasRoom<T>(m: Monitor<T>) { m.capacity == 0 || |m.queue| < m.capacity }

  // push, from one acquisition of the mutex to the next wait or the return. The
  // thread is a newcomer or a woken one.
  ghost predicate PushSection<T>(m: Monitor<T>, m': Monitor<T>, t: Thread, v: T, out: Outcome<T>) {
    && t !in m.notFull.parked
    && if m.shut then
         m' == m.(notFull := m.notFull.Resume(t)) && out == Refused
       else if HasRoom(m) then
         && NotifyOne(m.notEmpty, m'.notEmpty)
         && m' == m.(queue := m.queue + [v], entered := m.entered + [v],
                     notFull := m.notFull.Resume(t), notEmpty := m'.notEmpty)
         && out == Pushed
       else
         m' == m.(notFull := m.notFull.Park(t)) && out == Waiting
  }

  // The common end of pop, pop_for and try_pop.
  ghost predicate TakeFront<T>(m: Monitor<T>, m': Monitor<T>, notEmpty: CondVar, out: Outcome<T>) {
    && m.queue != []
    && NotifyOne(m.notFull, m'.notFull)
    && m' == m.(queue := m.queue[1..], left := m.left + [m.queue[0]],
                notEmpty := notEmpty, notFull := m'.notFull)
    && out == Got(m.queue[0])
  }

  // pop and pop_for. late: the deadline of pop_for has passed.
  ghost predicate PopSection<T>(m: Monitor<T>, m': Monitor<T>, t: Thread, late: bool, out: Outcome<T>) {
    && t !in m.notEmpty.parked
    && if m.queue != [] then
         TakeFront(m, m', m.notEmpty.Resume(t), out)
       else if m.shut then
         m' == m.(notEmpty := m.notEmpty.Resume(t)) && out == Refused
       else if late then
         m' == m.(notEmpty := m.notEmpty.Resume(t)) && out == TimedOut
       else
         m' == m.(notEmpty := m.notEmpty.Park(t)) && out == Waiting
  }

  ghost predicate TryPopSection<T>(m: Monitor<T>, m': Monitor<T>, out: Outcome<T>) {
    if m.queue == [] then m' == m && out == Refused else TakeFront(m, m', m.notEmpty, out)
  }

  datatype Action<T> =
    | Push(t: Thread, v: T)
    | Pop(t: Thread, late: bool)
    | TryPop
    | WakeConsumer(t: Thread)
    | WakeProducer(t: Thread)
    | SetShut
    | NotifyAllNotEmpty
    | NotifyAllNotFull

  ghost predicate Step<T(!new)>(m: Monitor<T>, a: Action<T>, m': Monitor<T>) {
    match a
    case Push(t, v) => exists out :: PushSection(m, m', t, v, out)
    case Pop(t, late) => exists out :: PopSection(m, m', t, late, out)
    case TryPop => exists out :: TryPopSection(m, m', out)
    case WakeConsumer(t) => t in m.notEmpty.parked && m' == m.(notEmpty := m.notEmpty.Wake(t))
    case WakeProducer(t) => t in m.notFull.parked && m' == m.(notFull := m.notFull.Wake(t))
    case SetShut => m' == m.(shut := true, closersEmpty := m.closersEmpty + 1)
    case NotifyAllNotEmpty =>
      m.closersEmpty > 0 &&
      m' == m.(notEmpty := m.notEmpty.NotifyAll(), closersEmpty := m.closersEmpty - 1,
               closersFull := m.closersFull + 1)
    case NotifyAllNotFull =>
      m.closersFull > 0 && m' == m.(notFull := m.notFull.NotifyAll(), closersFull := m.closersFull - 1)
  }

  // ------------------------------------------------------------- invariants

  // A parked consumer is owed nothing: while the queue is open, every queued
  // item is matched by a consumer already on its way; once it is shut, a
  // notify_all is still to come.
  ghost predicate ConsumerInv<T>(m: Monitor<T>) {
    m.notEmpty.parked != {} ==>
      if m.shut then m.closersEmpty > 0 else |m.queue| <= |m.notEmpty.woken|
  }

  // The same for producers and free slots.
  ghost predicate ProducerInv<T>(m: Monitor<T>) {
    m.notFull.parked != {} ==>
      && m.capacity > 0
      && if m.shut then m.closersEmpty + m.closersFull > 0
         else m.capacity - |m.queue| <= |m.notFull.woken|
  }

  ghost predicate Inv<T>(m: Monitor<T>) {
    && ConsumerInv(m)
    && ProducerInv(m)
    && m.notEmpty.parked !! m.notEmpty.woken
    && m.notFull.parked !! m.notFull.woken
    && (m.capacity > 0 ==> |m.queue| <= m.capacity)
    && m.entered == m.left + m.queue
    && (!m.shut ==> m.closersEmpty == 0 && m.closersFull == 0)
  }

  lemma PushKeeps<T>(m: Monitor<T>, m': Monitor<T>, t: Thread, v: T, out: Outcome<T>)
    requires Inv(m) && PushSection(m, m', t, v, out)
    ensures Inv(m')
  {
    if !m.shut && HasRoom(m) {
      WokenGrows(m.notEmpty, m'.notEmpty);
      assert |m'.notFull.woken| >= |m.notFull.woken| - 1;
      assert m'.entered == m'.left + m'.queue;
    } else {
      assert m'.notFull.woken <= m.notFull.woken;
    }
  }

  lemma TakeKeeps<T>(m: Monitor<T>, m': Monitor<T>, t: Thread, out: Outcome<T>)
    requires Inv(m) && TakeFront(m, m', m.notEmpty.Resume(t), out)
    ensures Inv(m')
  {
    WokenGrows(m.notFull, m'.notFull);
    assert |m'.notEmpty.woken| >= |m.notEmpty.woken| - 1;
    assert m'.entered == m'.left + m'.queue by { assert m.queue == [m.queue[0]] + m.queue[1..]; }
  }

  lemma PopKeeps<T>(m: Monitor<T>, m': Monitor<T>, t: Thread, late: bool, out: Outcome<T>)
    requires Inv(m) && PopSection(m, m', t, late, out)
    ensures Inv(m')
  {
    if m.queue != [] {
      TakeKeeps(m, m', t, out);
    }
  }

  lemma TryPopKeeps<T>(m: Monitor<T>, m': Monitor<T>, out: Outcome<T>)
    requires Inv(m) && TryPopSection(m, m', out)
    ensures Inv(m')
  {
    if m.queue != [] {
      WokenGrows(m.notFull, m'.notFull);
      assert m'.entered == m'.left + m'.queue by { assert m.queue == [m.queue[0]] + m.queue[1..]; }
    }
  }

  lemma StepKeeps<T(!new)>(m: Monitor<T>, a: Action<T>, m': Monitor<T>)
    requires Inv(m) && Step(m, a, m')
    ensures Inv(m')
  {
    match a
    case Push(t, v) =>
      var out :| PushSection(m, m', t, v, out);
      PushKeeps(m, m', t, v, out);
    case Pop(t, late) =>
      var out :| PopSection(m, m', t, late, out);
      PopKeeps(m, m', t, late, out);
    case TryPop =>
      var out :| TryPopSection(m, m', out);
      TryPopKeeps(m, m', out);
    case WakeConsumer(t) => WakeKeeps(m.notEmpty, t);
    case WakeProducer(t) => WakeKeeps(m.notFull, t);
    case _ =>
  }

  // ------------------------------------------------------------------- runs

  ghost predicate IsRun<T(!new)>(states: seq<Monitor<T>>, actions: seq<Action<T>>) {
    && |states| == |actions| + 1
    && IsInit(states[0])
    && forall i :: 0 <= i < |actions| ==> Step(states[i], actions[i], states[i + 1])
  }

  lemma {:induction false} RunKeeps<T(!new)>(states: seq<Monitor<T>>, actions: seq<Action<T>>, i: nat)
    requires IsRun(states, actions) && i < |states|
    ensures Inv(states[i])
  {
    if i > 0 {
      RunKeeps(states, actions, i - 1);
      StepKeeps(states[i - 1], actions[i - 1], states[i]);
    }
  }

  // No lost wakeup, in every state of every run in which no shutdown still owes
  // a notification.
  lemma NoLostWakeup<T(!new)>(states: seq<Monitor<T>>, actions: seq<Action<T>>, i: nat)
    requires IsRun(states, actions) && i < |states|
    requires states[i].closersEmpty == 0 && states[i].closersFull == 0
    ensures var m := states[i];
      && (m.notEmpty.parked != {} ==> !m.shut && |m.queue| <= |m.notEmpty.woken|)
      && (m.notFull.parked != {} ==> !m.shut && 0 <= m.capacity - |m.queue| <= |m.notFull.woken|)
  {
    RunKeeps(states, actions, i);
  }

  // When every thread of the queue is asleep, sleeping consumers face an empty
  // queue and sleeping producers a full one, so they never sleep side by side.
  lemma NoDeadlock<T(!new)>(states: seq<Monitor<T>>, actions: seq<Action<T>>, i: nat)
    requires IsRun(states, actions) && i < |states|
    requires states[i].closersEmpty == 0 && states[i].closersFull == 0
    requires states[i].notEmpty.woken == {} && states[i].notFull.woken == {}
    ensures var m := states[i];
      && (m.notEmpty.parked != {} ==> m.queue == [])
      && (m.notFull.parked != {} ==> |m.queue| == m.capacity > 0)
      && !(m.notEmpty.parked != {} && m.notFull.parked != {})
  {
    NoLostWakeup(states, actions, i);
    RunKeeps(states, actions, i);
  }

  // First in, first out, within capacity: what has come out is a prefix of what
  // went in, and the queue is the rest.
  lemma FirstInFirstOut<T(!new)>(states: seq<Monitor<T>>, actions: seq<Action<T>>, i: nat)
    requires IsRun(states, actions) && i < |states|
    ensures var m := states[i];
      && m.left <= m.entered && m.queue == m.entered[|m.left|..]
      && (m.capacity > 0 ==> |m.queue| <= m.capacity)
  {
    RunKeeps(states, actions, i);
  }

  // ------------------------------------------------ what a push and a pop do

  // An item goes in, at the back, exactly when the queue is open with room.
  lemma PushDecides<T(!new)>(m: Monitor<T>, t: Thread, v: T, m': Monitor<T>)
    requires Step(m, Push(t, v), m')
    ensures var taken := !m.shut && (m.capacity == 0 || |m.queue| < m.capacity);
      m'.queue == m.queue + (if taken then [v] else []) && m'.entered == m.entered + (if taken then [v] else [])
    ensures m'.left == m.left && m'.shut == m.shut
  {
    var out :| PushSection(m, m', t, v, out);
  }

  predicate Pops<T>(a: Action<T>) { a.Pop? || a.TryPop? }

  // A pop takes the front item whenever there is one, shut or not.
  lemma PopTakesFront<T(!new)>(m: Monitor<T>, a: Action<T>, m': Monitor<T>)
    requires Step(m, a, m') && Pops(a)
    ensures m.queue != [] ==> m'.queue == m.queue[1..] && m'.left == m.left + [m.queue[0]]
    ensures m.queue == [] ==> m'.queue == [] && m'.left == m.left
    ensures m'.entered == m.entered && m'.shut == m.shut
  {
    match a
    case Pop(t, late) => var out :| PopSection(m, m', t, late, out);
    case TryPop => var out :| TryPopSection(m, m', out);
  }

  // And gives it to the caller; it is refused exactly when the queue is shut and
  // holds nothing.
  lemma PopOutcome<T>(m: Monitor<T>, m': Monitor<T>, t: Thread, late: bool, out: Outcome<T>)
    requires PopSection(m, m', t, late, out)
    ensures m.queue != [] ==> out == Got(m.queue[0])
    ensures out == Refused <==> m.shut && m.queue == []
  {
  }

  // The pops among the actions from i up to j.
  function CountPops<T>(actions: seq<Action<T>>, i: nat, j: nat): nat
    requires j <= |actions|
  {
    if j <= i then 0 else CountPops(actions, i, j - 1) + (if Pops(actions[j - 1]) then 1 else 0)
  }

  function First<T>(xs: seq<T>, n: nat): seq<T> { if n < |xs| then xs[..n] else xs }

  // Of the shut queue m so many pops have taken the first items, in order.
  ghost predicate Drained<T>(m: Monitor<T>, z: Monitor<T>, pops: nat) {
    && z.shut && z.entered == m.entered
    && z.left == m.left + First(m.queue, pops)
    && z.queue == m.queue[|First(m.queue, pops)|..]
  }

  lemma DrainStep<T(!new)>(m: Monitor<T>, y: Monitor<T>, pops: nat, a: Action<T>, z: Monitor<T>)
    requires Drained(m, y, pops) && Step(y, a, z)
    ensures Drained(m, z, if Pops(a) then pops + 1 else pops)
  {
    if Pops(a) {
      PopTakesFront(y, a, z);
      if pops < |m.queue| { assert First(m.queue, pops + 1) == First(m.queue, pops) + [m.queue[pops]]; }
    } else if a.Push? {
      PushDecides(y, a.t, a.v, z);
    }
  }

  lemma StepOf<T(!new)>(states: seq<Monitor<T>>, actions: seq<Action<T>>, k: nat)
    requires IsRun(states, actions) && 0 < k < |states|
    ensures k <= |actions| && Step(states[k - 1], actions[k - 1], states[k])
  {
    hide Step;
  }

  lemma NoneDrained<T>(m: Monitor<T>)
    requires m.shut
    ensures Drained(m, m, 0)
  {
    assert m.queue[..0] == [] && m.left + [] == m.left;
  }

  // A queue that is shut is still handed out: in any run, the pops that come after
  // the flag is set take what was queued then, item by item in order, so that the
  // first to be refused finds all of it taken.
  lemma {:induction false} ShutDrains<T(!new)>(states: seq<Monitor<T>>, actions: seq<Action<T>>, i: nat, j: nat)
    requires IsRun(states, actions) && i <= j < |states| == |actions| + 1 && states[i].shut
    ensures Drained(states[i], states[j], CountPops(actions, i, j))
    decreases j
  {
    if i == j {
      NoneDrained(states[i]);
    } else {
      StepOf(states, actions, j);
      ShutDrains(states, actions, i, j - 1);
      hide Drained, Step, IsRun;
      DrainStep(states[i], states[j - 1], CountPops(actions, i, j - 1), actions[j - 1], states[j]);
    }
  }
}
