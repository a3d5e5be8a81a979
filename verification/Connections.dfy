// One connection as an object: its buffers, its write interest and its session,
// and the loops of its read and write handlers.
module Connections {
  import opened Sequences
  import opened Framing
  import opened Reading

  // One send call: how many bytes the socket took, or why none.
  datatype Send = Accepted(n: nat) | SendInterrupted | SendWouldBlock | SendFailed

  // How the send loop ends.
  datatype WriteEnd = Drained | Blocked | Broken

  // How many of length buffered bytes the socket takes, and how the loop ends. A
  // script that runs out counts as would-block; a send of no bytes is a failure.
  function Transmission(length: nat, script: seq<Send>): (r: (nat, WriteEnd))
    ensures r.0 <= length && (r.1 == Drained <==> r.0 == length)
    decreases |script|
  {
    if length == 0 then (0, Drained)
    else if script == [] then (0, Blocked)
    else match script[0]
      case Accepted(n) =>
        if n == 0 then (0, Broken)
        else
          var taken := if n < length then n else length;
          var more := Transmission(length - taken, script[1..]);
          (taken + more.0, more.1)
      case SendInterrupted => Transmission(length, script[1..])
      case SendWouldBlock => (0, Blocked)
      case SendFailed => (0, Broken)
  }

  // The send loop stops at this outcome, if bytes are left.
  predicate SendStops(r: Send) { r == Accepted(0) || r.SendWouldBlock? || r.SendFailed? }

  // And closes the connection.
  predicate SendBreaks(r: Send) { r == Accepted(0) || r.SendFailed? }

  ghost predicate SendsUpTo(script: seq<Send>, i: nat) {
    i <= |script| && (forall j :: 0 <= j < i ==> !SendStops(script[j])) && (i < |script| ==> SendStops(script[i]))
  }

  // The bytes the socket is ready for.
  function Total(script: seq<Send>): nat {
    if script == [] then 0 else (if script[0].Accepted? then script[0].n else 0) + Total(script[1..])
  }

  // What the loop sends and how it ends, by the place of the first outcome that
  // stops it: everything, if the socket is ready for as much before that;
  // otherwise just that much, and the connection breaks exactly at a failure or a
  // send of nothing.
  lemma {:induction false} TransmissionDecides(length: nat, script: seq<Send>, i: nat)
    requires SendsUpTo(script, i)
    ensures Transmission(length, script) ==
      if Total(script[..i]) >= length then (length, Drained)
      else (Total(script[..i]), if i < |script| && SendBreaks(script[i]) then Broken else Blocked)
    decreases |script|
  {
    if length > 0 && i > 0 {
      assert forall j :: 0 <= j < i - 1 ==> script[1..][j] == script[j + 1];
      var n := if script[0].Accepted? then script[0].n else 0;
      TransmissionDecides(if n < length then length - n else 0, script[1..], i - 1);
      assert script[..i][1..] == script[1..][..i - 1];
    }
  }

  lemma {:induction false} SendStopExists(script: seq<Send>) returns (i: nat)
    ensures SendsUpTo(script, i)
    decreases |script|
  {
    if script == [] || SendStops(script[0]) {
      i := 0;
    } else {
      i := SendStopExists(script[1..]);
      forall j | 0 <= j < i + 1 ensures !SendStops(script[j]) {
        assert j > 0 ==> script[j] == script[1..][j - 1];
      }
      i := i + 1;
    }
  }

  lemma EverySend(length: nat, script: seq<Send>)
    ensures forall i: nat :: SendsUpTo(script, i) ==>
      Transmission(length, script) ==
        if Total(script[..i]) >= length then (length, Drained)
        else (Total(script[..i]), if i < |script| && SendBreaks(script[i]) then Broken else Blocked)
  {
    forall i: nat | SendsUpTo(script, i)
      ensures Transmission(length, script) ==
        if Total(script[..i]) >= length then (length, Drained)
        else (Total(script[..i]), if i < |script| && SendBreaks(script[i]) then Broken else Blocked)
    {
      TransmissionDecides(length, script, i);
    }
  }

  // Four bytes of the length, the most significant first, then the message.
  method FrameMessage(json: string) returns (framed: string)
    ensures framed == Frame(json)
    ensures |framed| == 4 + |json| && framed[4..] == json
    ensures framed[0] as int * 0x100_0000 + framed[1] as int * 0x1_0000 + framed[2] as int * 0x100 + framed[3] as int
         == |json| % 0x1_0000_0000
    ensures forall i :: 0 <= i < 4 ==> framed[i] as int < 0x100
  {
    HeaderSum(|json| % UINT32_MOD);
    framed := Framing.Header(|json| % UINT32_MOD);
    hide Framing.Header;
    framed := framed + json;
  }

  class Connection {
    var fd: int
    var readBuffer: string
    var writeBuffer: string
    var armed: bool            // EPOLLOUT is among the registered events
    var connected: bool
    var loggedIn: bool
    var userId: int
    var username: string
    var submitted: seq<string> // frames handed to the thread pool

    ghost function View(): Reader
      reads this
    {
      Reader(readBuffer, connected, submitted)
    }

    constructor (fd: int)
      ensures this.fd == fd && View() == FRESH && writeBuffer == "" && !armed && !loggedIn
    {
      this.fd := fd;
      readBuffer, writeBuffer, armed := "", "", false;
      connected, loggedIn := true, false;
      userId, username, submitted := 0, "", [];
    }

    method SendJson(json: string)
      modifies `writeBuffer, `armed
      ensures writeBuffer == old(writeBuffer) + if connected then Frame(json) else ""
      ensures armed == (old(armed) || connected)
    {
      var framed := FrameMessage(json);
      SendPacket(framed);
    }

    method SendPacket(framed: string)
      modifies `writeBuffer, `armed
      ensures writeBuffer == old(writeBuffer) + if connected then framed else ""
      ensures armed == (old(armed) || connected)
    {
      if !connected { return; }
      writeBuffer := writeBuffer + framed;
      armed := true;
    }

    // tryExtractFrame on the read buffer, erasing what it takes.
    method TryExtractFrame() returns (json: Option<string>)
      modifies `readBuffer
      ensures match TryExtract(old(readBuffer))
        case Nothing => json == None && readBuffer == old(readBuffer)
        case Body(body, rest) => json == Some(body) && readBuffer == rest
    {
      if |readBuffer| < HEADER_LEN { return None; }
      var length := Length(readBuffer);
      if length == 0 || length > MAX_BODY_LEN { return None; }
      if |readBuffer| < HEADER_LEN + length { return None; }
      json := Some(readBuffer[HEADER_LEN..HEADER_LEN + length]);
      readBuffer := readBuffer[HEADER_LEN + length..];
    }

    // The recv loop of handleRead; closing: it ended in end of file or failure.
    method ReceiveAll(script: seq<Recv>) returns (closing: bool)
      modifies `readBuffer
      ensures readBuffer == old(readBuffer) + Received(script)
      ensures closing == Closes(script)
      ensures forall i: nat :: StopsAt(script, i) ==>
        && readBuffer == old(readBuffer) + AllData(script[..i])
        && (closing <==> i < |script| && HangsUp(script[i]))
    {
      EveryStop(script);
      var i := 0;
      while i < |script|
        invariant i <= |script|
        invariant readBuffer + Received(script[i..]) == old(readBuffer) + Received(script)
        invariant Closes(script[i..]) == Closes(script)
      {
        assert script[i..][0] == script[i] && script[i..][1..] == script[i + 1..];
        match script[i] {
        case Bytes(data) =>
          if data == "" { return true; }
          ConcatAssoc(readBuffer, data, Received(script[i + 1..]));
          readBuffer := readBuffer + data;
        case Interrupted =>
        case WouldBlock => return false;
        case Failed => return true;
        }
        i := i + 1;
      }
      closing := false;
    }

    // The extraction loop of handleRead.
    method SubmitFrames()
      modifies `readBuffer, `submitted
      ensures submitted == old(submitted) + Decode(old(readBuffer)).frames
      ensures readBuffer == Decode(old(readBuffer)).rest
    {
      var json := TryExtractFrame();
      while json.Some?
        invariant match json
          case None => submitted == old(submitted) + Decode(old(readBuffer)).frames
                       && readBuffer == Decode(old(readBuffer)).rest
          case Some(body) =>
            && submitted + ([body] + Decode(readBuffer).frames) == old(submitted) + Decode(old(readBuffer)).frames
            && Decode(readBuffer).rest == Decode(old(readBuffer)).rest
        decreases json.Some?, |readBuffer|
      {
        ghost var before, left := submitted, Decode(readBuffer);
        submitted := submitted + [json.value];
        assert submitted + left.frames == before + ([json.value] + left.frames);
        json := TryExtractFrame();
      }
    }

    // The send loop of handleWrite, and what it leaves for the peer to read.
    method Transmit(script: seq<Send>) returns (sent: string, end: WriteEnd)
      modifies `writeBuffer
      ensures sent + writeBuffer == old(writeBuffer)
      ensures (|sent|, end) == Transmission(|old(writeBuffer)|, script)
      ensures end == Drained <==> writeBuffer == ""
      ensures forall i: nat :: SendsUpTo(script, i) ==>
        && (writeBuffer == "" <==> Total(script[..i]) >= |old(writeBuffer)|)
        && (writeBuffer != "" ==> |sent| == Total(script[..i]))
        && (end == Broken <==> writeBuffer != "" && i < |script| && SendBreaks(script[i]))
    {
      EverySend(|writeBuffer|, script);
      hide SendsUpTo, Total, SendBreaks;
      sent := "";
      var i := 0;
      while writeBuffer != "" && i < |script|
        invariant i <= |script| && sent + writeBuffer == old(writeBuffer)
        invariant var (more, e) := Transmission(|writeBuffer|, script[i..]);
          (|sent| + more, e) == Transmission(|old(writeBuffer)|, script)
        decreases |script| - i
      {
        assert script[i..][0] == script[i] && script[i..][1..] == script[i + 1..];
        match script[i] {
        case Accepted(n) =>
          if n == 0 { return sent, Broken; }
          var taken := if n < |writeBuffer| then n else |writeBuffer|;
          assert writeBuffer == writeBuffer[..taken] + writeBuffer[taken..];
          ConcatAssoc(sent, writeBuffer[..taken], writeBuffer[taken..]);
          sent := sent + writeBuffer[..taken];
          writeBuffer := writeBuffer[taken..];
        case SendInterrupted =>
        case SendWouldBlock => return sent, Blocked;
        case SendFailed => return sent, Broken;
        }
        i := i + 1;
      }
      end := if writeBuffer == "" then Drained else Blocked;
    }
  }
}
