// The blocking queue as an object. Each method is one critical section of the
// program's method of that name; the section's effect on the monitor is the step
// of BlockingQueueModel.
module BlockingQueues {
  import opened CondVars
  import opened BlockingQueueModel

  class BlockingQueue<T(!new)> {
    const capacity: nat
    var queue: seq<T>
    var isShutdown: bool
    var notEmpty: CondVar
    var notFull: CondVar
    ghost var closersEmpty: nat
    ghost var closersFull: nat
    ghost var entered: seq<T>
    ghost var left: seq<T>

    ghost function View(): Monitor<T>
      reads this
    {
      Monitor(capacity, queue, isShutdown, notEmpty, notFull, closersEmpty, closersFull, entered, left)
    }

    constructor (capacity: nat)
      ensures this.capacity == capacity && queue == [] && !isShutdown && Inv(View())
    {
      this.capacity := capacity;
      queue, isShutdown := [], false;
      notEmpty, notFull := CondVar({}, {}), CondVar({}, {});
      closersEmpty, closersFull, entered, left := 0, 0, [], [];
    }

    method Push(t: Thread, value: T) returns (out: Outcome<T>)
      requires Inv(View()) && t !in notFull.parked
      modifies this
      ensures PushSection(old(View()), View(), t, value, out) && Inv(View())
      ensures isShutdown == old(isShutdown)
      ensures out == Refused <==> isShutdown
      ensures out == Waiting <==> !isShutdown && 0 < capacity <= |old(queue)|
      ensures out == Pushed <==> !isShutdown && (capacity == 0 || |old(queue)| < capacity)
      ensures queue == old(queue) + if out == Pushed then [value] else []
    {
      ghost var before := View();
      if !(isShutdown || capacity == 0 || |queue| < capacity) {
        notFull := notFull.Park(t);
        out := Waiting;
      } else {
        notFull := notFull.Resume(t);
        if isShutdown {
          out := Refused;
        } else {
          queue := queue + [value];
          entered := entered + [value];
          notEmpty := Notify(notEmpty);
          out := Pushed;
        }
      }
      PushKeeps(before, View(), t, value, out);
    }

    // pop, and pop_for with late telling that its deadline has passed.
    method Pop(t: Thread, late: bool) returns (out: Outcome<T>)
      requires Inv(View()) && t !in notEmpty.parked
      modifies this
      ensures PopSection(old(View()), View(), t, late, out) && Inv(View())
      ensures isShutdown == old(isShutdown)
      ensures old(queue) != [] ==> out == Got(old(queue)[0]) && queue == old(queue)[1..]
      ensures old(queue) == [] ==> queue == []
      ensures out == Refused <==> old(queue) == [] && isShutdown
      ensures out == TimedOut <==> old(queue) == [] && !isShutdown && late
      ensures out == Waiting <==> old(queue) == [] && !isShutdown && !late
    {
      ghost var before := View();
      if !(isShutdown || |queue| > 0) && !late {
        notEmpty := notEmpty.Park(t);
        out := Waiting;
      } else {
        notEmpty := notEmpty.Resume(t);
        if |queue| == 0 {
          out := if isShutdown then Refused else TimedOut;
        } else {
          out := Take();
        }
      }
      PopKeeps(before, View(), t, late, out);
    }

    method TryPop() returns (out: Outcome<T>)
      requires Inv(View())
      modifies this
      ensures TryPopSection(old(View()), View(), out) && Inv(View())
      ensures isShutdown == old(isShutdown)
      ensures old(queue) != [] ==> out == Got(old(queue)[0]) && queue == old(queue)[1..]
      ensures old(queue) == [] ==> out == Refused && queue == []
    {
      ghost var before := View();
      if |queue| == 0 {
        out := Refused;
      } else {
        out := Take();
      }
      TryPopKeeps(before, View(), out);
    }

    // The common end of the three: take the front, notify a producer.
    method Take() returns (out: Outcome<T>)
      requires queue != []
      modifies this
      ensures TakeFront(old(View()), View(), notEmpty, out) && notEmpty == old(notEmpty)
    {
      out := Got(queue[0]);
      left := left + [queue[0]];
      queue := queue[1..];
      notFull := Notify(notFull);
    }

    // shutdown: the flag under the mutex, then the two notifications outside it.
    // Each is a step of the monitor of its own; run together they leave nobody
    // asleep.
    method Shutdown()
      requires Inv(View())
      modifies this
      ensures Inv(View()) && isShutdown && queue == old(queue)
      ensures notEmpty == old(notEmpty).NotifyAll() && notFull == old(notFull).NotifyAll()
      ensures closersEmpty == old(closersEmpty) && closersFull == old(closersFull)
    {
      SetShutdown();
      NotifyAllNotEmpty();
      NotifyAllNotFull();
    }

    method SetShutdown()
      requires Inv(View())
      modifies `isShutdown, `closersEmpty
      ensures Step(old(View()), SetShut, View()) && Inv(View())
    {
      isShutdown := true;
      closersEmpty := closersEmpty + 1;
    }

    method NotifyAllNotEmpty()
      requires Inv(View()) && closersEmpty > 0
      modifies `notEmpty, `closersEmpty, `closersFull
      ensures Step(old(View()), Action.NotifyAllNotEmpty, View()) && Inv(View())
    {
      notEmpty := notEmpty.NotifyAll();
      closersEmpty, closersFull := closersEmpty - 1, closersFull + 1;
    }

    method NotifyAllNotFull()
      requires Inv(View()) && closersFull > 0
      modifies `notFull, `closersFull
      ensures Step(old(View()), Action.NotifyAllNotFull, View()) && Inv(View())
    {
      notFull := notFull.NotifyAll();
      closersFull := closersFull - 1;
    }
  }
}
