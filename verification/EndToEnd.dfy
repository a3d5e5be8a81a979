// From one end of a connection to the other: what the client types is what the
// server's tasks parse, and what the server broadcasts is what the client reads.
module EndToEnd {
  import opened Sequences
  import opened Framing
  import opened Reading
  import opened Scanner
  import opened Messages
  import opened RoundTrips
  import opened ChatRules
  import Client
  import Output
  import Pool = ThreadPoolSteps
  import PoolTheorems = ThreadPoolTheorems
  import Fate = ThreadPoolFate

  // What the client program sends: a login, then numbered chat lines.
  datatype Request = Login(id: nat, timestamp: int, username: string, password: string)
                   | Chat(id: nat, timestamp: int, text: string)

  function Wire(r: Request): string {
    match r
    case Login(id, timestamp, username, password) => LoginRequest(Digits(id), timestamp, username, password)
    case Chat(id, timestamp, text) => ChatRequest(Digits(id), timestamp, text)
  }

  function Understood(r: Request): ClientMessage {
    match r
    case Login(id, _, username, password) =>
      ClientMessage("login_req", Digits(id), map["username" := username, "password" := password])
    case Chat(id, _, text) => ClientMessage("chat_req", Digits(id), map["text" := text])
  }

  function Wires(requests: seq<Request>): seq<string> {
    seq(|requests|, i requires 0 <= i < |requests| => Wire(requests[i]))
  }

  lemma Parsed(r: Request)
    ensures Parse(Wire(r)) == Ok(Understood(r))
  {
    match r
    case Login(id, timestamp, username, password) => NumberedRequests(id, timestamp, username, password, "");
    case Chat(id, timestamp, text) => NumberedRequests(id, timestamp, "", "", text);
  }

  // Client to server: whatever part of the client's requests has arrived, cut into
  // read events in any way, the connection submits one task for each complete
  // request, in order, and each parses to exactly what the client meant. The
  // connection stays open; it buffers nothing once everything has arrived.
  lemma {:induction false} RequestsUnderstood(requests: seq<Request>, events: seq<seq<Recv>>)
    requires forall i :: 0 <= i < |requests| ==> 1 <= |Wire(requests[i])| <= MAX_BODY_LEN
    requires NoneCloses(events) && Stream(events) <= Concat(Frames(Wires(requests)))
    ensures var r := HandleAll(FRESH, events);
      && r.connected
      && |r.submitted| == WholeFrames(Wires(requests), |Stream(events)|)
      && (forall i :: 0 <= i < |r.submitted| ==>
            r.submitted[i] == Wire(requests[i]) && Parse(r.submitted[i]) == Ok(Understood(requests[i])))
      && (Stream(events) == Concat(Frames(Wires(requests))) ==> r.buffer == "" && |r.submitted| == |requests|)
  {
    hide Wire, Parse, Understood;
    var r, wires, n := HandleAll(FRESH, events), Wires(requests), |Stream(events)|;
    assert Stream(events) == Concat(Frames(wires))[..n];
    DecodePrefix(wires, n);
    ReaderState(events);
    forall i | 0 <= i < |r.submitted|
      ensures r.submitted[i] == Wire(requests[i]) && Parse(r.submitted[i]) == Ok(Understood(requests[i]))
    {
      assert r.submitted[i] == Wire(requests[i]);
      Parsed(requests[i]);
    }
    if Stream(events) == Concat(Frames(wires)) {
      MessagesArrive(wires, events);
    }
  }

  // The push of task t is step p, and it succeeds.
  ghost predicate PushedAt(states: seq<Pool.Pool>, poolEvents: seq<Pool.Event>, t: Pool.Task, p: nat) {
    p < |poolEvents| && p < |states| && poolEvents[p] == Pool.Push(t) && !states[p].queueShut
  }

  ghost predicate Pushed(states: seq<Pool.Pool>, poolEvents: seq<Pool.Event>, t: Pool.Task) {
    exists p: nat :: PushedAt(states, poolEvents, t, p)
  }

  // Task t is pushed before task u, as far as both pushes succeed.
  ghost predicate PushedBefore(states: seq<Pool.Pool>, poolEvents: seq<Pool.Event>, t: Pool.Task, u: Pool.Task) {
    forall p, q :: PushedAt(states, poolEvents, t, p) && PushedAt(states, poolEvents, u, q) ==> p < q
  }

  // Task t leaves the queue before task u, as far as both do.
  ghost predicate PoppedBefore(s: Pool.Pool, t: Pool.Task, u: Pool.Task) {
    forall a, b :: 0 <= a < |s.popped| && 0 <= b < |s.popped| && s.popped[a] == t && s.popped[b] == u ==> a < b
  }

  // Whether a task accepted just now is certain to run.
  ghost predicate InTime(s: Pool.Pool) { s.running || Fate.QueueServed(s) }

  lemma {:induction false} AcceptedByPush(states: seq<Pool.Pool>, poolEvents: seq<Pool.Event>, k: nat, t: Pool.Task)
    returns (p: nat)
    requires Pool.IsRun(states, poolEvents) && k < |states| && t in states[k].accepted
    ensures PushedAt(states, poolEvents, t, p)
  {
    if t in states[k - 1].accepted {
      p := AcceptedByPush(states, poolEvents, k - 1, t);
    } else {
      p := k - 1;
    }
  }

  // The place in acceptance order that a push gives its task.
  lemma PlaceOf(states: seq<Pool.Pool>, poolEvents: seq<Pool.Event>, t: Pool.Task, p: nat)
    requires Pool.IsRun(states, poolEvents) && PushedAt(states, poolEvents, t, p)
    ensures t in states[p + 1].accepted && |states[p + 1].accepted| == |states[p].accepted| + 1
    ensures var z := states[|poolEvents|].accepted; |states[p].accepted| < |z| && z[|states[p].accepted|] == t
  {
    PoolTheorems.History(states, poolEvents, p + 1, |poolEvents|);
    assert states[p + 1] == Pool.PushStep(states[p], t);
    assert states[p + 1].accepted == states[p].accepted + [t];
  }

  // At the winning return a task has run once if its push succeeded in time, and
  // never if no push of it succeeded.
  lemma RunsIfPushed(states: seq<Pool.Pool>, poolEvents: seq<Pool.Event>, t: Pool.Task)
    requires Pool.IsRun(states, poolEvents) && states[|poolEvents|].closer.Returned?
    requires forall p :: PushedAt(states, poolEvents, t, p) ==> InTime(states[p + 1])
    ensures multiset(states[|poolEvents|].executed)[t] == if Pushed(states, poolEvents, t) then 1 else 0
  {
    if p: nat :| PushedAt(states, poolEvents, t, p) {
      PlaceOf(states, poolEvents, t, p);
      if states[p + 1].running {
        PoolTheorems.Drain(states, poolEvents, p + 1, t);
      } else {
        Fate.ServedTaskRuns(states, poolEvents, p + 1, t);
      }
    } else if t in states[|poolEvents|].executed {
      PoolTheorems.AtMostOnce(states, poolEvents, |poolEvents|, t);
      var p := AcceptedByPush(states, poolEvents, |poolEvents|, t);
    }
  }

  // Tasks leave the queue in the order of their pushes.
  lemma PoppedInOrder(states: seq<Pool.Pool>, poolEvents: seq<Pool.Event>, t: Pool.Task, u: Pool.Task)
    requires Pool.IsRun(states, poolEvents) && PushedBefore(states, poolEvents, t, u)
    ensures PoppedBefore(states[|poolEvents|], t, u)
  {
    var z := states[|poolEvents|];
    forall a, b | 0 <= a < |z.popped| && 0 <= b < |z.popped| && z.popped[a] == t && z.popped[b] == u ensures a < b {
      PoolTheorems.Conservation(states, poolEvents, |poolEvents|);
      assert z.accepted[a] == t && z.accepted[b] == u;
      var p := AcceptedByPush(states, poolEvents, |poolEvents|, t);
      var q := AcceptedByPush(states, poolEvents, |poolEvents|, u);
      PlaceOf(states, poolEvents, t, p);
      PlaceOf(states, poolEvents, u, q);
      PoolTheorems.AcceptedOnce(states, poolEvents, |poolEvents|);
      PoolTheorems.History(states, poolEvents, p + 1, q);
    }
  }

  // And on to the workers: let work say which frame each task is for, and take any
  // run of the thread pool that pushes the frames' tasks in the order submitted, each
  // while the pool runs or a worker is bound for its queue. When the winning shutdown
  // has returned, the task of each frame whose push succeeded has been executed
  // exactly once, and no other; tasks left the queue in the order of the requests;
  // and each task's frame parses to what the client meant.
  lemma RequestsExecuted(requests: seq<Request>, events: seq<seq<Recv>>,
                         tasks: seq<Pool.Task>, work: map<Pool.Task, string>,
                         states: seq<Pool.Pool>, poolEvents: seq<Pool.Event>)
    requires forall i :: 0 <= i < |requests| ==> 1 <= |Wire(requests[i])| <= MAX_BODY_LEN
    requires NoneCloses(events) && Stream(events) <= Concat(Frames(Wires(requests)))
    requires |tasks| == |HandleAll(FRESH, events).submitted|
    requires forall i :: 0 <= i < |tasks| ==>
      tasks[i] in work && work[tasks[i]] == HandleAll(FRESH, events).submitted[i]
    requires Pool.IsRun(states, poolEvents) && states[|poolEvents|].closer.Returned?
    requires forall i, j :: 0 <= i < j < |tasks| ==> PushedBefore(states, poolEvents, tasks[i], tasks[j])
    requires forall i, p :: 0 <= i < |tasks| && PushedAt(states, poolEvents, tasks[i], p) ==> InTime(states[p + 1])
    ensures |tasks| <= |requests|
    ensures forall i :: 0 <= i < |tasks| ==> Parse(work[tasks[i]]) == Ok(Understood(requests[i]))
    ensures forall i :: 0 <= i < |tasks| ==>
      multiset(states[|poolEvents|].executed)[tasks[i]] == if Pushed(states, poolEvents, tasks[i]) then 1 else 0
    ensures forall i, j :: 0 <= i < j < |tasks| ==> PoppedBefore(states[|poolEvents|], tasks[i], tasks[j])
  {
    hide Wire, Parse, Understood, Pushed, PushedAt, PushedBefore, PoppedBefore, InTime;
    RequestsUnderstood(requests, events);
    forall i | 0 <= i < |tasks|
      ensures multiset(states[|poolEvents|].executed)[tasks[i]] == if Pushed(states, poolEvents, tasks[i]) then 1 else 0
    {
      RunsIfPushed(states, poolEvents, tasks[i]);
    }
    forall i, j | 0 <= i < j < |tasks| ensures PoppedBefore(states[|poolEvents|], tasks[i], tasks[j]) {
      PoppedInOrder(states, poolEvents, tasks[i], tasks[j]);
    }
  }

  // A chat line, as broadcast.
  datatype Line = Line(username: string, userId: int, text: string) {
    function Payload(): string { ChatPayload(username, userId, text) }
  }

  ghost predicate Shows(message: string, line: Line) {
    exists data :: ExtractObject(message, "data") == Some(data)
      && ExtractString(data, "username") == Some(line.username)
      && ExtractString(data, "text") == Some(line.text)
  }

  // Server to client: in every run of a connection's write side, whatever packets
  // it was given, login answers, notices and errors among them, and whatever part
  // of the output has arrived, the client reads the first so many of them, in
  // order; each broadcast among these shows its sender's name and text unchanged;
  // all packets are read once everything has arrived.
  lemma {:induction false} LinesShown(states: seq<Output.Side>, actions: seq<Output.Action>, i: nat,
                   packets: seq<string>, delivered: string)
    requires Output.IsRun(states, actions) && i < |states|
    requires Client.Sendable(packets) && states[i].enqueued == Frames(packets)
    requires delivered <= states[i].sent
    ensures var read := Client.Messages(delivered);
      && read <= packets
      && (forall k, line: Line :: 0 <= k < |read| && packets[k] == line.Payload() ==> Shows(read[k], line))
      && (delivered == states[i].sent && states[i].buffer == "" ==> read == packets)
  {
    Client.ClientReadsPrefix(states, actions, i, packets, delivered);
    var read := Client.Messages(delivered);
    forall k, line: Line | 0 <= k < |read| && packets[k] == line.Payload() ensures Shows(read[k], line) {
      RelayLossless(line.username, line.text, line.userId);
    }
  }
}
