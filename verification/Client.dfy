// The client's receiving side, and the stream from the server's senders to it.
module Client {
  import opened Sequences
  import opened Framing
  import Output

  // The bytes the peer will deliver before end of file.
  class Socket {
    var stream: string

    constructor (stream: string)
      ensures this.stream == stream
    {
      this.stream := stream;
    }

    // recv: some of the bytes, at least one unless the stream is over.
    method Recv(limit: nat) returns (chunk: string)
      requires limit > 0
      modifies this
      ensures |chunk| <= limit && old(stream) == chunk + stream
      ensures chunk == "" <==> old(stream) == ""
    {
      if stream == "" { return ""; }
      var n: nat :| 1 <= n <= |stream| && n <= limit;
      chunk := stream[..n];
      stream := stream[n..];
      assert chunk + stream == old(stream);
    }
  }

  // recv_exact: n bytes, or nothing when the stream ends first, however recv
  // splits them.
  method RecvExact(sock: Socket, n: nat) returns (data: Option<string>)
    modifies sock
    ensures |old(sock.stream)| >= n ==>
              data == Some(old(sock.stream)[..n]) && sock.stream == old(sock.stream)[n..]
    ensures |old(sock.stream)| < n ==> data == None && sock.stream == ""
  {
    var got := "";
    while |got| < n
      invariant |got| <= n
      invariant got + sock.stream == old(sock.stream)
      decreases n - |got|
    {
      var chunk := sock.Recv(n - |got|);
      if chunk == "" {
        assert got + sock.stream == got;
        return None;
      }
      got := got + chunk;
    }
    assert (got + sock.stream)[..n] == got;
    assert (got + sock.stream)[n..] == sock.stream;
    data := Some(got);
  }

  // What recv_message reads off a stream; None also for an empty body.
  function NextMessage(stream: string): (r: Extracted)
    ensures r.Body? ==> |r.rest| < |stream|
  {
    if |stream| < HEADER_LEN || Length(stream) == 0 || |stream| < HEADER_LEN + Length(stream) then Nothing
    else Body(stream[HEADER_LEN..HEADER_LEN + Length(stream)], stream[HEADER_LEN + Length(stream)..])
  }

  method RecvMessage(sock: Socket) returns (body: Option<string>)
    modifies sock
    ensures match NextMessage(old(sock.stream))
      case Nothing => body == None
      case Body(json, rest) => body == Some(json) && sock.stream == rest
  {
    ghost var s := sock.stream;
    var header := RecvExact(sock, HEADER_LEN);
    if header.None? || header.value == "" { return None; }
    var length := Length(header.value);
    assert length == Length(s);
    body := RecvExact(sock, length);
    if body.None? || body.value == "" { return None; }
    assert s[HEADER_LEN..][..length] == s[HEADER_LEN..HEADER_LEN + length];
    assert s[HEADER_LEN..][length..] == s[HEADER_LEN + length..];
  }

  function Messages(stream: string): seq<string>
    decreases |stream|
  {
    match NextMessage(stream)
    case Nothing => []
    case Body(json, rest) => [json] + Messages(rest)
  }

  // What recv_loop shows of the bodies that arrive: those before the first that
  // json.loads rejects, or turns into None, either of which ends the loop.
  function Shown(bodies: seq<string>, loads: string -> bool): seq<string> {
    if bodies == [] || !loads(bodies[0]) then [] else [bodies[0]] + Shown(bodies[1..], loads)
  }

  // The bodies shown are those before the first that does not load.
  lemma {:induction false} ShownUpTo(bodies: seq<string>, loads: string -> bool, k: nat)
    requires k <= |bodies| && (forall i :: 0 <= i < k ==> loads(bodies[i])) && (k < |bodies| ==> !loads(bodies[k]))
    ensures Shown(bodies, loads) == bodies[..k]
    decreases k
  {
    if k > 0 {
      assert forall i :: 0 <= i < k - 1 ==> bodies[1..][i] == bodies[i + 1];
      ShownUpTo(bodies[1..], loads, k - 1);
      assert bodies[..k] == [bodies[0]] + bodies[1..][..k - 1];
    }
  }

  // When every body loads, all are shown.
  lemma {:induction false} AllShown(bodies: seq<string>, loads: string -> bool)
    requires forall i :: 0 <= i < |bodies| ==> loads(bodies[i])
    ensures Shown(bodies, loads) == bodies
    decreases |bodies|
  {
    if bodies != [] {
      AllShown(bodies[1..], loads);
      assert bodies == [bodies[0]] + bodies[1..];
    }
  }

  // recv_loop; loads tells which bodies json.loads turns into a value.
  method RecvLoop(sock: Socket, loads: string -> bool) returns (messages: seq<string>)
    modifies sock
    ensures messages == Shown(Messages(old(sock.stream)), loads)
  {
    messages := [];
    var done := false;
    ghost var all := Shown(Messages(sock.stream), loads);
    while !done
      invariant done ==> messages == all
      invariant !done ==> messages + Shown(Messages(sock.stream), loads) == all
      decreases !done, |sock.stream|
    {
      ghost var s := sock.stream;
      var m := RecvMessage(sock);
      if m.None? {
        done := true;
      } else {
        assert Messages(s) == [m.value] + Messages(sock.stream);
        if loads(m.value) {
          ConcatAssoc(messages, [m.value], Shown(Messages(sock.stream), loads));
          messages := messages + [m.value];
        } else {
          done := true;
        }
      }
    }
  }

  // ---------------------------------------------------- reading the frames

  predicate Sendable(messages: seq<string>) {
    forall i :: 0 <= i < |messages| ==> 1 <= |messages[i]| < UINT32_MOD
  }

  lemma FrameRead(json: string, rest: string)
    requires 1 <= |json| < UINT32_MOD
    ensures NextMessage(Frame(json) + rest) == Body(json, rest)
  {
    var n := |json| % UINT32_MOD;
    var s := Frame(json) + rest;
    assert n == |json|;
    assert s == Header(n) + (json + rest);
    HeaderLength(n, json + rest);
    assert s[HEADER_LEN..HEADER_LEN + n] == json;
    assert s[HEADER_LEN + n..] == rest;
  }

  // An empty body ends the loop like a closed connection.
  lemma EmptyFrame(rest: string)
    ensures NextMessage(Frame("") + rest) == Nothing && Messages(Frame("") + rest) == []
  {
    var s := Frame("") + rest;
    assert s == Header(0) + rest;
    HeaderLength(0, rest);
  }

  // An incomplete frame yields nothing.
  lemma CutFrame(json: string, n: nat)
    requires 1 <= |json| < UINT32_MOD && n < |Frame(json)|
    ensures NextMessage(Frame(json)[..n]) == Nothing
  {
    if n >= HEADER_LEN { HeaderCut(json, n); }
  }

  lemma FirstCut(messages: seq<string>, n: nat)
    requires messages != [] && Sendable(messages) && n < |Frame(messages[0])|
    requires Concat(Frames(messages)) == Frame(messages[0]) + Concat(Frames(messages[1..]))
    ensures Messages(Concat(Frames(messages))[..n]) == []
  {
    hide Frame, Concat, NextMessage;
    assert Concat(Frames(messages))[..n] == Frame(messages[0])[..n];
    CutFrame(messages[0], n);
  }

  // Cut the framed messages after any byte: the client reads exactly the messages
  // whose frames are complete.
  lemma {:induction false} ReadsWholeFrames(messages: seq<string>, n: nat)
    requires Sendable(messages) && n <= |Concat(Frames(messages))|
    ensures Messages(Concat(Frames(messages))[..n]) == messages[..WholeFrames(messages, n)]
    decreases |messages|
  {
    if messages == [] {
    } else if n < |Frame(messages[0])| {
      ConcatHead(messages);
      FirstCut(messages, n);
    } else {
      ConcatHead(messages);
      hide Messages, Frame, Frames, Concat;
      var m := n - |Frame(messages[0])|;
      ReadsWholeFrames(messages[1..], m);
      FirstWhole(messages, n);
      TakeOneMore(messages, WholeFrames(messages[1..], m));
    }
  }

  // Past a whole first frame the rest is read as before.
  lemma FirstWhole(messages: seq<string>, n: nat)
    requires messages != [] && Sendable(messages)
    requires |Frame(messages[0])| <= n <= |Concat(Frames(messages))|
    requires n - |Frame(messages[0])| <= |Concat(Frames(messages[1..]))|
    ensures Messages(Concat(Frames(messages))[..n])
         == [messages[0]] + Messages(Concat(Frames(messages[1..]))[..n - |Frame(messages[0])|])
  {
    var first, more := Frame(messages[0]), Concat(Frames(messages[1..]));
    ConcatHead(messages);
    TakePast(first, more, n);
    FrameRead(messages[0], more[..n - |first|]);
  }

  // From senders to client: in every run of a connection's write side whose
  // packets are framed messages, and for every stretch of the accepted bytes the
  // network has delivered, the client reads a prefix of the messages in order.
  lemma {:induction false} ClientReadsPrefix(states: seq<Output.Side>, actions: seq<Output.Action>, i: nat,
                                             messages: seq<string>, delivered: string)
    requires Output.IsRun(states, actions) && i < |states|
    requires Sendable(messages) && states[i].enqueued == Frames(messages)
    requires delivered <= states[i].sent
    ensures Messages(delivered) <= messages
    ensures delivered == states[i].sent && states[i].buffer == "" ==> Messages(delivered) == messages
  {
    Output.OutputStream(states, actions, i);
    var all, n := Concat(Frames(messages)), |delivered|;
    assert delivered == all[..n];
    ReadsWholeFrames(messages, n);
    AllWhole(messages);
  }
}
