// The read side of a connection: what one readable event does, and what any
// sequence of them does to a byte stream.
module Reading {
  import opened Sequences
  import opened Framing

  // One recv call: n >= 0 bytes (none means end of file), or a failure.
  datatype Recv = Bytes(data: string) | Interrupted | WouldBlock | Failed

  // The bytes an event appends: up to end of file, would-block, or failure. A
  // script that runs out counts as would-block.
  function Received(script: seq<Recv>): string {
    if script == [] then ""
    else match script[0]
      case Bytes(data) => if data == "" then "" else data + Received(script[1..])
      case Interrupted => Received(script[1..])
      case _ => ""
  }

  // The event ends in end of file or failure.
  predicate Closes(script: seq<Recv>) {
    script != [] &&
    match script[0]
    case Bytes(data) => data == "" || Closes(script[1..])
    case Interrupted => Closes(script[1..])
    case WouldBlock => false
    case Failed => true
  }

  // The loop stops at this outcome: end of file, would-block or failure.
  predicate Stops(r: Recv) { r == Bytes("") || r.WouldBlock? || r.Failed? }

  // And the connection with it.
  predicate HangsUp(r: Recv) { r == Bytes("") || r.Failed? }

  // The loop goes as far as i.
  ghost predicate StopsAt(script: seq<Recv>, i: nat) {
    i <= |script| && (forall j :: 0 <= j < i ==> !Stops(script[j])) && (i < |script| ==> Stops(script[i]))
  }

  function DataOf(r: Recv): string { if r.Bytes? then r.data else "" }

  function AllData(script: seq<Recv>): string {
    if script == [] then "" else DataOf(script[0]) + AllData(script[1..])
  }

  lemma {:induction false} StopExists(script: seq<Recv>) returns (i: nat)
    ensures StopsAt(script, i)
    decreases |script|
  {
    if script == [] || Stops(script[0]) {
      i := 0;
    } else {
      i := StopExists(script[1..]);
      forall j | 0 <= j < i + 1 ensures !Stops(script[j]) {
        assert j > 0 ==> script[j] == script[1..][j - 1];
      }
      i := i + 1;
    }
  }

  // What the event appends and whether it closes, by the place of the first
  // outcome that stops the loop.
  lemma {:induction false} EventDecides(script: seq<Recv>, i: nat)
    requires StopsAt(script, i)
    ensures Received(script) == AllData(script[..i])
    ensures Closes(script) <==> i < |script| && HangsUp(script[i])
    decreases |script|
  {
    if i > 0 {
      assert forall j :: 0 <= j < i - 1 ==> script[1..][j] == script[j + 1];
      EventDecides(script[1..], i - 1);
      assert script[..i][1..] == script[1..][..i - 1];
    }
  }

  lemma EveryStop(script: seq<Recv>)
    ensures forall i: nat :: StopsAt(script, i) ==>
      && Received(script) == AllData(script[..i])
      && (Closes(script) <==> i < |script| && HangsUp(script[i]))
  {
    forall i: nat | StopsAt(script, i)
      ensures Received(script) == AllData(script[..i]) && (Closes(script) <==> i < |script| && HangsUp(script[i]))
    {
      EventDecides(script, i);
    }
  }

  // A connection's read side: its buffer, whether it is open, and the frames it
  // has submitted to the thread pool.
  datatype Reader = Reader(buffer: string, connected: bool, submitted: seq<string>)

  const FRESH: Reader := Reader("", true, [])

  function HandleRead(r: Reader, script: seq<Recv>): Reader {
    if !r.connected then r
    else
      var all := r.buffer + Received(script);
      if Closes(script) || HasInvalidLength(all) then Reader(all, false, r.submitted)
      else var d := Decode(all); Reader(d.rest, true, r.submitted + d.frames)
  }

  // One readable event of an open connection. It closes the connection exactly if
  // the loop stops at end of file or failure, or the buffer then starts with a bad
  // length; the bytes appended are exactly those before the stop.
  lemma HandleReadDecides(r: Reader, script: seq<Recv>, i: nat)
    requires r.connected && StopsAt(script, i)
    ensures var r', all := HandleRead(r, script), r.buffer + AllData(script[..i]);
      && (r'.connected <==> !(i < |script| && HangsUp(script[i])) && !HasInvalidLength(all))
      && r'.submitted == r.submitted + (if r'.connected then Decode(all).frames else [])
      && r'.buffer == (if r'.connected then Decode(all).rest else all)
  {
    EventDecides(script, i);
  }

  function HandleAll(r: Reader, events: seq<seq<Recv>>): Reader
    decreases |events|
  {
    if events == [] then r else HandleRead(HandleAll(r, events[..|events| - 1]), events[|events| - 1])
  }

  // The stream the events carry.
  function Stream(events: seq<seq<Recv>>): string
    decreases |events|
  {
    if events == [] then "" else Stream(events[..|events| - 1]) + Received(events[|events| - 1])
  }

  predicate NoneCloses(events: seq<seq<Recv>>) {
    forall i :: 0 <= i < |events| ==> !Closes(events[i])
  }

  // What the reader holds after events none of which closes: either everything
  // decodable is submitted and the rest is buffered, or a bad length has blocked
  // the stream and closed the connection.
  lemma {:induction false} ReaderState(events: seq<seq<Recv>>)
    requires NoneCloses(events)
    ensures var r := HandleAll(FRESH, events);
      && r.submitted == Decode(Stream(events)).frames
      && (r.connected ==> r.buffer == Decode(Stream(events)).rest)
      && (!r.connected ==> HasInvalidLength(Decode(Stream(events)).rest))
    decreases |events|
  {
    if events != [] {
      var n := |events| - 1;
      var before, got := Stream(events[..n]), Received(events[n]);
      ReaderState(events[..n]);
      DecodeAppend(before, got);
      var r := HandleAll(FRESH, events[..n]);
      if r.connected {
        if HasInvalidLength(r.buffer + got) {
          assert Decode(r.buffer + got) == Decoded([], r.buffer + got);
        }
      } else {
        InvalidBlocks(Decode(before).rest, got);
      }
    }
  }

  // Batching independence: however a stream is cut into read events, the frames
  // submitted, in order, are those of the whole stream.
  lemma {:induction false} BatchingIndependent(events: seq<seq<Recv>>)
    requires NoneCloses(events)
    ensures HandleAll(FRESH, events).submitted == Decode(Stream(events)).frames
  {
    ReaderState(events);
  }

  // With an event that closes, its bytes and all later ones are discarded.
  lemma {:induction false} ClosedStaysClosed(r: Reader, events: seq<seq<Recv>>)
    requires !r.connected
    ensures HandleAll(r, events) == r
    decreases |events|
  {
    if events != [] { ClosedStaysClosed(r, events[..|events| - 1]); }
  }

  lemma {:induction false} HandleAllConcat(r: Reader, a: seq<seq<Recv>>, b: seq<seq<Recv>>)
    ensures HandleAll(r, a + b) == HandleAll(HandleAll(r, a), b)
    decreases |b|
  {
    if b == [] {
      assert a + b == a;
    } else {
      var n := |b| - 1;
      assert (a + b)[..|a + b| - 1] == a + b[..n];
      HandleAllConcat(r, a, b[..n]);
    }
  }

  lemma {:induction false} ClosingEventDiscards(before: seq<seq<Recv>>, closing: seq<Recv>, after: seq<seq<Recv>>)
    requires NoneCloses(before) && Closes(closing)
    ensures HandleAll(FRESH, before + [closing] + after).submitted == Decode(Stream(before)).frames
    ensures !HandleAll(FRESH, before + [closing] + after).connected
  {
    ReaderState(before);
    HandleAllConcat(FRESH, before + [closing], after);
    HandleAllConcat(FRESH, before, [closing]);
    assert [closing][..0] == [];
    ClosedStaysClosed(HandleAll(FRESH, before + [closing]), after);
  }

  // The read buffer of an open connection is shorter than one maximal frame, or
  // starts with a bad length; then the next event closes and submits nothing.
  lemma BufferBounded(r: Reader, script: seq<Recv>, next: seq<Recv>)
    requires HandleRead(r, script).connected
    ensures var r1 := HandleRead(r, script);
      && (|r1.buffer| < HEADER_LEN + MAX_BODY_LEN || HasInvalidLength(r1.buffer))
      && (HasInvalidLength(r1.buffer) ==>
            !HandleRead(r1, next).connected && HandleRead(r1, next).submitted == r1.submitted)
  {
    RestBounded(r.buffer + Received(script));
    var r1 := HandleRead(r, script);
    if HasInvalidLength(r1.buffer) { InvalidBlocks(r1.buffer, Received(next)); }
  }

  // End to end: well-sized messages, framed and cut in any way, are submitted one
  // by one, in order, with nothing left over.
  lemma {:induction false} MessagesArrive(messages: seq<string>, events: seq<seq<Recv>>)
    requires forall i :: 0 <= i < |messages| ==> 1 <= |messages[i]| <= MAX_BODY_LEN
    requires NoneCloses(events) && Stream(events) == Concat(Frames(messages))
    ensures HandleAll(FRESH, events) == Reader("", true, messages)
  {
    DecodeFrames(messages);
    ReaderState(events);
  }
}
