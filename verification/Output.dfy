// The write side of an open connection as an interleaved step system: any number
// of senders, and the reactor's handleWrite, over one locked buffer and one
// write-interest bit.
module Output {
  import opened Framing

  type Thread = nat

  // Where the reactor is in handleWrite: outside, in its send loop with the lock
  // held, or past the mod_fd that drops write interest, lock still held.
  datatype WriterPc = Outside | Sending | Disarmed

  datatype Side = Side(
    buffer: string,          // write_buffer_
    armed: bool,             // EPOLLOUT is among the registered events
    connected: bool,
    writer: WriterPc,
    sending: map<Thread, string>,  // past isConnected(), before the append
    arming: set<Thread>,     // past the append, before mod_fd
    enqueued: seq<string>,   // packets appended, in order
    sent: string)            // bytes the socket took

  const FRESH: Side := Side("", false, true, Outside, map[], {}, [], "")

  datatype Action =
    | TestConnected(t: Thread, packet: string)
    | Append(t: Thread)
    | Arm(t: Thread)
    | EnterWrite
    | SendSome(n: nat)
    | SendWouldBlock
    | SendFails
    | Disarm
    | LeaveWrite
    | Close

  predicate Enabled(s: Side, a: Action) {
    match a
    case TestConnected(t, _) => t !in s.sending && t !in s.arming
    case Append(t) => t in s.sending && s.writer.Outside?
    case Arm(t) => t in s.arming
    case EnterWrite => s.writer.Outside? && s.connected
    case SendSome(n) => s.writer.Sending? && 1 <= n <= |s.buffer|
    case SendWouldBlock => s.writer.Sending? && s.buffer != ""
    case SendFails => s.writer.Sending? && s.buffer != ""
    case Disarm => s.writer.Sending? && s.buffer == ""
    case LeaveWrite => s.writer.Disarmed?
    case Close => s.writer.Outside?
  }

  // mod_fd on an open connection succeeds.
  function Apply(s: Side, a: Action): Side
    requires Enabled(s, a)
  {
    match a
    case TestConnected(t, p) => if s.connected then s.(sending := s.sending[t := p]) else s
    case Append(t) =>
      s.(buffer := s.buffer + s.sending[t], enqueued := s.enqueued + [s.sending[t]],
         sending := s.sending - {t}, arming := s.arming + {t})
    case Arm(t) => s.(armed := s.armed || s.connected, arming := s.arming - {t})
    case EnterWrite => s.(writer := Sending)
    case SendSome(n) => s.(buffer := s.buffer[n..], sent := s.sent + s.buffer[..n])
    case SendWouldBlock => s.(writer := Outside)
    case SendFails => s.(writer := Outside, connected := false, armed := false)
    case Disarm => s.(writer := Disarmed, armed := false)
    case LeaveWrite => s.(writer := Outside)
    case Close => s.(connected := false, armed := false)
  }

  ghost predicate Inv(s: Side) {
    && s.sent + s.buffer == Concat(s.enqueued)
    && (s.connected && s.buffer != "" ==> s.armed || s.arming != {})
    && (s.writer.Disarmed? ==> s.buffer == "")
  }

  lemma StepKeeps(s: Side, a: Action)
    requires Inv(s) && Enabled(s, a)
    ensures Inv(Apply(s, a))
  {
    match a
    case Append(t) =>
      ConcatAppend(s.enqueued, s.sending[t]);
      assert s.sent + (s.buffer + s.sending[t]) == (s.sent + s.buffer) + s.sending[t];
      assert t in Apply(s, a).arming;
    case SendSome(n) =>
      assert s.buffer == s.buffer[..n] + s.buffer[n..];
      assert (s.sent + s.buffer[..n]) + s.buffer[n..] == s.sent + s.buffer;
    case _ =>
  }

  predicate IsRun(states: seq<Side>, actions: seq<Action>) {
    && |states| == |actions| + 1
    && states[0] == FRESH
    && forall i :: 0 <= i < |actions| ==>
         Enabled(states[i], actions[i]) && states[i + 1] == Apply(states[i], actions[i])
  }

  lemma {:induction false} RunKeeps(states: seq<Side>, actions: seq<Action>, i: nat)
    requires IsRun(states, actions) && i < |states|
    ensures Inv(states[i])
  {
    if i > 0 {
      RunKeeps(states, actions, i - 1);
      StepKeeps(states[i - 1], actions[i - 1]);
    }
  }

  // No stranded output: while the connection is open, buffered bytes always have
  // write interest armed, or a sender on its way to arm it.
  lemma NoStrandedOutput(states: seq<Side>, actions: seq<Action>, i: nat)
    requires IsRun(states, actions) && i < |states|
    requires states[i].connected && states[i].buffer != ""
    ensures states[i].armed || exists t :: t in states[i].arming
  {
    RunKeeps(states, actions, i);
  }

  // The bytes the socket took, followed by the buffer, are the packets appended,
  // in order: no byte lost, repeated or reordered.
  lemma OutputStream(states: seq<Side>, actions: seq<Action>, i: nat)
    requires IsRun(states, actions) && i < |states|
    ensures states[i].sent + states[i].buffer == Concat(states[i].enqueued)
  {
    RunKeeps(states, actions, i);
  }
}
