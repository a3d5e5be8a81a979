// Length-prefixed framing: four big-endian length bytes, then the body.
module Framing {
  import opened Sequences

  const HEADER_LEN: nat := 4
  const MAX_BODY_LEN: nat := 64 * 1024
  const UINT32_MOD: nat := 0x1_0000_0000

  // The length as htonl lays it out.
  function Header(n: nat): (h: string)
    requires n < UINT32_MOD
    ensures |h| == HEADER_LEN
  {
    [(n / 0x100_0000) as char, (n / 0x1_0000 % 0x100) as char, (n / 0x100 % 0x100) as char, (n % 0x100) as char]
  }

  // The length ntohl reads back.
  function Length(buffer: string): nat
    requires |buffer| >= HEADER_LEN
  {
    ((buffer[0] as int * 0x100 + buffer[1] as int) * 0x100 + buffer[2] as int) * 0x100 + buffer[3] as int
  }

  // frameMessage narrows the size to 32 bits.
  function Frame(json: string): string { Header(|json| % UINT32_MOD) + json }

  predicate BadLength(n: nat) { n == 0 || n > MAX_BODY_LEN }

  predicate HasInvalidLength(buffer: string) { |buffer| >= HEADER_LEN && BadLength(Length(buffer)) }

  datatype Extracted = Nothing | Body(json: string, rest: string)

  function TryExtract(buffer: string): (r: Extracted)
    ensures r.Body? ==> |r.rest| < |buffer|
  {
    if |buffer| < HEADER_LEN || BadLength(Length(buffer)) || |buffer| < HEADER_LEN + Length(buffer) then Nothing
    else Body(buffer[HEADER_LEN..HEADER_LEN + Length(buffer)], buffer[HEADER_LEN + Length(buffer)..])
  }

  lemma HeaderBytes(n: nat)
    requires n < UINT32_MOD
    ensures ((n / 0x100_0000 * 0x100 + n / 0x1_0000 % 0x100) * 0x100 + n / 0x100 % 0x100) * 0x100 + n % 0x100 == n
  {
  }

  lemma HeaderLength(n: nat, rest: string)
    requires n < UINT32_MOD
    ensures Length(Header(n) + rest) == n
  {
    HeaderBytes(n);
    var s := Header(n) + rest;
    assert s[0] == Header(n)[0] && s[1] == Header(n)[1] && s[2] == Header(n)[2] && s[3] == Header(n)[3];
  }

  // A frame followed by anything yields its message and leaves the rest intact,
  // exactly when the message is neither empty nor longer than 64 KiB.
  lemma FrameRoundTrip(json: string, rest: string)
    ensures TryExtract(Frame(json) + rest) == Body(json, rest) <==> 1 <= |json| <= MAX_BODY_LEN
  {
    var n := |json| % UINT32_MOD;
    var s := Frame(json) + rest;
    assert s == Header(n) + (json + rest);
    HeaderLength(n, json + rest);
    if 1 <= |json| <= MAX_BODY_LEN {
      assert s[HEADER_LEN..HEADER_LEN + n] == json;
      assert s[HEADER_LEN + n..] == rest;
    }
  }

  lemma HeaderSum(n: nat)
    requires n < UINT32_MOD
    ensures var h := Header(n);
      && h[0] as int * 0x100_0000 + h[1] as int * 0x1_0000 + h[2] as int * 0x100 + h[3] as int == n
      && forall i :: 0 <= i < 4 ==> h[i] as int < 0x100
  {
    HeaderBytes(n);
  }

  // The most significant byte first.
  lemma LengthIs(buffer: string)
    requires |buffer| >= 4
    ensures Length(buffer) == buffer[0] as int * 0x100_0000 + buffer[1] as int * 0x1_0000
                            + buffer[2] as int * 0x100 + buffer[3] as int
  {
  }

  lemma InvalidExactly(buffer: string)
    ensures HasInvalidLength(buffer) <==>
      && |buffer| >= 4
      && var a, b, c, d := buffer[0] as int, buffer[1] as int, buffer[2] as int, buffer[3] as int;
         var n := a * 0x100_0000 + b * 0x1_0000 + c * 0x100 + d;
         n == 0 || n > 65536
  {
  }

  // A buffer of bytes gives up a message exactly when it starts with that message's
  // frame, and the message has from 1 to 65536 bytes.
  lemma ExtractedExactly(buffer: string, json: string, rest: string)
    requires forall i :: 0 <= i < |buffer| ==> buffer[i] as int < 0x100
    ensures TryExtract(buffer) == Body(json, rest) <==> buffer == Frame(json) + rest && 1 <= |json| <= 0x1_0000
  {
    if TryExtract(buffer) == Body(json, rest) {
      ExtractedFrame(buffer, json, rest);
    } else if 1 <= |json| <= 0x1_0000 {
      FrameRoundTrip(json, rest);
    }
    hide TryExtract, Frame, Header, Length;
  }

  lemma ExtractedFrame(buffer: string, json: string, rest: string)
    requires forall i :: 0 <= i < |buffer| ==> buffer[i] as int < 0x100
    requires TryExtract(buffer) == Body(json, rest)
    ensures buffer == Frame(json) + rest && 1 <= |json| <= 0x1_0000
  {
    HeaderIs(buffer, |json|);
    hide Header, Length;
    assert |json| % UINT32_MOD == |json|;
    assert buffer == buffer[..4] + json + rest;
  }

  lemma HeaderIs(buffer: string, n: nat)
    requires |buffer| >= 4 && forall i :: 0 <= i < 4 ==> buffer[i] as int < 0x100
    requires Length(buffer) == n < UINT32_MOD
    ensures buffer[..4] == Header(n)
  {
    var a, b, c, d := buffer[0] as int, buffer[1] as int, buffer[2] as int, buffer[3] as int;
    assert n == ((a * 0x100 + b) * 0x100 + c) * 0x100 + d;
    assert n / 0x100 == (a * 0x100 + b) * 0x100 + c;
    assert n / 0x1_0000 == a * 0x100 + b;
    assert n / 0x100_0000 == a;
  }

  // ------------------------------------------------------ decoding a stream

  datatype Decoded = Decoded(frames: seq<string>, rest: string)

  // Every frame of the stream, up to the first bad length or incomplete frame.
  function Decode(stream: string): Decoded
    decreases |stream|
  {
    match TryExtract(stream)
    case Nothing => Decoded([], stream)
    case Body(json, rest) => var d := Decode(rest); Decoded([json] + d.frames, d.rest)
  }

  // Bytes that arrive later do not change a frame already complete.
  lemma ExtractAppend(a: string, b: string)
    requires TryExtract(a).Body?
    ensures TryExtract(a + b) == Body(TryExtract(a).json, TryExtract(a).rest + b)
  {
    var n := HEADER_LEN + Length(a);
    assert Length(a + b) == Length(a);
    assert (a + b)[HEADER_LEN..n] == a[HEADER_LEN..n];
    assert (a + b)[n..] == a[n..] + b;
  }

  // Decoding can stop anywhere and resume with what was left.
  lemma {:induction false} DecodeAppend(a: string, b: string)
    ensures Decode(a + b).frames == Decode(a).frames + Decode(Decode(a).rest + b).frames
    ensures Decode(a + b).rest == Decode(Decode(a).rest + b).rest
    decreases |a|
  {
    match TryExtract(a)
    case Nothing =>
    case Body(json, rest) =>
      ExtractAppend(a, b);
      DecodeAppend(rest, b);
      var more := Decode(Decode(rest).rest + b).frames;
      assert [json] + (Decode(rest).frames + more) == ([json] + Decode(rest).frames) + more;
  }

  // A bad length blocks the stream for good.
  lemma {:induction false} InvalidBlocks(a: string, b: string)
    requires HasInvalidLength(a)
    ensures HasInvalidLength(a + b) && Decode(a + b) == Decoded([], a + b)
  {
    assert Length(a + b) == Length(a);
  }

  // What is left after decoding is short of a frame, or blocked.
  lemma {:induction false} RestBounded(stream: string)
    ensures var rest := Decode(stream).rest;
      TryExtract(rest) == Nothing && (|rest| < HEADER_LEN + MAX_BODY_LEN || HasInvalidLength(rest))
    decreases |stream|
  {
    match TryExtract(stream)
    case Nothing =>
    case Body(_, rest) => RestBounded(rest);
  }

  function Concat(parts: seq<string>): string {
    if parts == [] then "" else parts[0] + Concat(parts[1..])
  }

  lemma {:induction false} ConcatAppend(parts: seq<string>, p: string)
    ensures Concat(parts + [p]) == Concat(parts) + p
    decreases |parts|
  {
    if parts == [] {
      assert [p][1..] == [];
    } else {
      ConcatAppend(parts[1..], p);
      assert (parts + [p])[1..] == parts[1..] + [p];
    }
  }

  function Frames(messages: seq<string>): seq<string> {
    seq(|messages|, i requires 0 <= i < |messages| => Frame(messages[i]))
  }

  // A stream of well-sized frames decodes to exactly the messages framed.
  lemma {:induction false} DecodeFrames(messages: seq<string>)
    requires forall i :: 0 <= i < |messages| ==> 1 <= |messages[i]| <= MAX_BODY_LEN
    ensures Decode(Concat(Frames(messages))) == Decoded(messages, "")
    decreases |messages|
  {
    if messages != [] {
      var more := Frames(messages[1..]);
      assert Frames(messages)[1..] == more;
      FrameRoundTrip(messages[0], Concat(more));
      DecodeFrames(messages[1..]);
      var stream := Frame(messages[0]) + Concat(more);
      assert Concat(Frames(messages)) == stream;
      assert Decode(stream) == Decoded([messages[0]] + messages[1..], "");
    }
  }

  // ------------------------------------------------------- part of a stream

  // How many of the messages' frames are complete in the first n bytes.
  function WholeFrames(messages: seq<string>, n: nat): (k: nat)
    ensures k <= |messages|
    decreases |messages|
  {
    if messages == [] || n < |Frame(messages[0])| then 0
    else 1 + WholeFrames(messages[1..], n - |Frame(messages[0])|)
  }

  lemma {:induction false} AllWhole(messages: seq<string>)
    ensures WholeFrames(messages, |Concat(Frames(messages))|) == |messages|
    decreases |messages|
  {
    if messages != [] {
      ConcatHead(messages);
      AllWhole(messages[1..]);
    }
  }

  lemma ConcatHead(messages: seq<string>)
    requires messages != []
    ensures Concat(Frames(messages)) == Frame(messages[0]) + Concat(Frames(messages[1..]))
  {
    assert Frames(messages)[1..] == Frames(messages[1..]);
  }

  lemma TakePast(first: string, more: string, n: nat)
    requires |first| <= n <= |first| + |more|
    ensures (first + more)[..n] == first + more[..n - |first|]
  {
  }

  lemma HeaderCut(json: string, n: nat)
    requires HEADER_LEN <= n <= |Frame(json)|
    ensures Length(Frame(json)[..n]) == |json| % UINT32_MOD
  {
    HeaderLength(|json| % UINT32_MOD, json);
    var s, t := Frame(json), Frame(json)[..n];
    assert t[0] == s[0] && t[1] == s[1] && t[2] == s[2] && t[3] == s[3];
  }

  // Part of a frame decodes to nothing, and blocks nothing.
  lemma CutDecodes(json: string, n: nat)
    requires 1 <= |json| <= MAX_BODY_LEN && n < |Frame(json)|
    ensures var cut := Frame(json)[..n];
      Decode(cut) == Decoded([], cut) && !HasInvalidLength(cut)
  {
    if n >= HEADER_LEN { HeaderCut(json, n); }
  }

  // Cut a stream of well-sized frames after any byte: exactly the messages whose
  // frames are complete are decoded, and what is left blocks nothing.
  lemma {:induction false} DecodePrefix(messages: seq<string>, n: nat)
    requires forall i :: 0 <= i < |messages| ==> 1 <= |messages[i]| <= MAX_BODY_LEN
    requires n <= |Concat(Frames(messages))|
    ensures var d := Decode(Concat(Frames(messages))[..n]);
      d.frames == messages[..WholeFrames(messages, n)] && !HasInvalidLength(d.rest)
    decreases |messages|
  {
    if messages == [] {
    } else {
      ConcatHead(messages);
      var first, more := Frame(messages[0]), Concat(Frames(messages[1..]));
      if n < |first| {
        assert (first + more)[..n] == first[..n];
        CutDecodes(messages[0], n);
      } else {
        var m := n - |first|;
        DecodePrefix(messages[1..], m);
        TakePast(first, more, n);
        FrameRoundTrip(messages[0], more[..m]);
        TakeOneMore(messages, WholeFrames(messages[1..], m));
      }
    }
  }

  lemma TakeOneMore(messages: seq<string>, k: nat)
    requires messages != [] && k < |messages|
    ensures [messages[0]] + messages[1..][..k] == messages[..k + 1]
  {
  }
}
