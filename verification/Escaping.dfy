// escapeJson and unescapeJson: the five escapes the server handles.
module Escaping {
  import opened Sequences

  function EscapeChar(c: char): string {
    match c
    case '\\' => "\\\\"
    case '"' => "\\\""
    case '\n' => "\\n"
    case '\r' => "\\r"
    case '\t' => "\\t"
    case _ => [c]
  }

  function Escape(s: string): string {
    if s == "" then "" else EscapeChar(s[0]) + Escape(s[1..])
  }

  method EscapeJson(input: string) returns (out: string)
    ensures out == Escape(input)
  {
    out := "";
    for i := 0 to |input|
      invariant out == Escape(input[..i])
    {
      out := out + EscapeChar(input[i]);
      EscapeAppend(input[..i], input[i]);
      assert input[..i + 1] == input[..i] + [input[i]];
    }
    assert input[..|input|] == input;
  }

  lemma {:induction false} EscapeAppend(s: string, c: char)
    ensures Escape(s + [c]) == Escape(s) + EscapeChar(c)
    decreases |s|
  {
    if s == "" {
    } else {
      EscapeAppend(s[1..], c);
      assert (s + [c])[1..] == s[1..] + [c];
    }
  }

  lemma {:induction false} EscapeConcat(s: string, t: string)
    ensures Escape(s + t) == Escape(s) + Escape(t)
    decreases |s|
  {
    if s == "" {
      assert s + t == t;
    } else {
      EscapeConcat(s[1..], t);
      EscapeHead(s, t);
      ConcatAssoc(EscapeChar(s[0]), Escape(s[1..]), Escape(t));
    }
  }

  lemma {:induction false} EscapeHead(s: string, t: string)
    requires s != ""
    ensures Escape(s + t) == EscapeChar(s[0]) + Escape(s[1..] + t)
  {
    assert (s + t)[1..] == s[1..] + t;
  }

  // What a backslash followed by c stands for; None when the backslash is kept.
  function Decode(c: char): (r: string) {
    match c
    case 'n' => "\n"
    case 'r' => "\r"
    case 't' => "\t"
    case '\\' => "\\"
    case '"' => "\""
    case _ => ""
  }

  function Unescape(s: string): string {
    if s == "" then ""
    else if s[0] == '\\' && |s| > 1 && Decode(s[1]) != "" then Decode(s[1]) + Unescape(s[2..])
    else [s[0]] + Unescape(s[1..])
  }

  method UnescapeJson(input: string) returns (out: string)
    ensures out == Unescape(input)
  {
    out := "";
    var i := 0;
    while i < |input|
      invariant i <= |input|
      invariant out + Unescape(input[i..]) == Unescape(input)
    {
      ghost var rest := input[i..];
      if input[i] == '\\' && i + 1 < |input| && Decode(input[i + 1]) != "" {
        assert rest[2..] == input[i + 2..];
        out := out + Decode(input[i + 1]);
        i := i + 2;
      } else {
        assert rest[1..] == input[i + 1..];
        out := out + [input[i]];
        i := i + 1;
      }
    }
  }

  lemma {:induction false} UnescapeStep(c: char, rest: string)
    ensures Unescape(EscapeChar(c) + rest) == [c] + Unescape(rest)
  {
    var e := EscapeChar(c);
    var s := e + rest;
    assert s[0] == e[0] && s[|e|..] == rest;
    if |e| == 2 {
      assert s[1] == e[1];
    }
  }

  // Decoding undoes encoding, for every string.
  lemma {:induction false} UnescapeEscape(s: string)
    ensures Unescape(Escape(s)) == s
    decreases |s|
  {
    if s == "" {
    } else {
      UnescapeStep(s[0], Escape(s[1..]));
      UnescapeEscape(s[1..]);
    }
  }

  // Encoding is therefore injective.
  lemma {:induction false} EscapeInjective(s: string, t: string)
    requires Escape(s) == Escape(t)
    ensures s == t
  {
    UnescapeEscape(s);
    UnescapeEscape(t);
  }

  lemma {:induction false} EscapeSize(s: string)
    ensures |s| <= |Escape(s)| <= 2 * |s|
    decreases |s|
  {
    if s == "" {
    } else {
      EscapeSize(s[1..]);
    }
  }

  lemma {:induction false} UnescapeSize(s: string)
    ensures |Unescape(s)| <= |s|
    decreases |s|
  {
    if s == "" {
    } else if s[0] == '\\' && |s| > 1 && Decode(s[1]) != "" {
      UnescapeSize(s[2..]);
    } else {
      UnescapeSize(s[1..]);
    }
  }

  // Inside an encoded string every quote follows a backslash.
  lemma {:induction false} EscapedQuote(s: string, i: nat)
    requires i < |Escape(s)| && Escape(s)[i] == '"'
    ensures i > 0 && Escape(s)[i - 1] == '\\'
    decreases |s|
  {
    var e := EscapeChar(s[0]);
    if i >= |e| {
      EscapedQuote(s[1..], i - |e|);
    }
  }

  // A string without special characters is its own encoding.
  lemma {:induction false} EscapePlain(s: string)
    requires forall c :: c in s ==> EscapeChar(c) == [c]
    ensures Escape(s) == s
    decreases |s|
  {
    if s == "" {
    } else {
      EscapePlain(s[1..]);
      assert s == [s[0]] + s[1..];
    }
  }

  // The five escapes by their codes: backslash, quote, line feed, carriage return
  // and tab; every other character stands for itself.
  lemma EscapeCodes(c: char)
    ensures EscapeChar(c) ==
      var code := c as int;
      if code == 0x5C then [0x5C as char, 0x5C as char]
      else if code == 0x22 then [0x5C as char, 0x22 as char]
      else if code == 0x0A then [0x5C as char, 0x6E as char]
      else if code == 0x0D then [0x5C as char, 0x72 as char]
      else if code == 0x09 then [0x5C as char, 0x74 as char]
      else [c]
  {
  }

  // In an encoded string each character's escape stands where those before it end.
  lemma EscapeAt(s: string, i: nat)
    requires i < |s|
    ensures Escape(s) == Escape(s[..i]) + EscapeChar(s[i]) + Escape(s[i + 1..])
  {
    assert s == s[..i] + s[i..] && s[i..] == [s[i]] + s[i + 1..];
    EscapeConcat(s[..i], s[i..]);
    assert Escape(s[i..]) == EscapeChar(s[i]) + Escape(s[i + 1..]);
    ConcatAssoc(Escape(s[..i]), EscapeChar(s[i]), Escape(s[i + 1..]));
  }

  lemma DecodeCodes(c: char)
    ensures Decode(c) ==
      var code := c as int;
      if code == 0x6E then [0x0A as char]
      else if code == 0x72 then [0x0D as char]
      else if code == 0x74 then [0x09 as char]
      else if code == 0x5C || code == 0x22 then [c]
      else []
  {
  }

  // What a backslash and the character after it decode to, by their codes; a
  // backslash before any other character, or at the end, is kept.
  lemma UnescapeCodes(s: string)
    requires s != "" && s[0] as int == 0x5C
    ensures |s| == 1 ==> Unescape(s) == s
    ensures |s| > 1 ==> var code := s[1] as int;
      Unescape(s) ==
        if code == 0x6E then [0x0A as char] + Unescape(s[2..])
        else if code == 0x72 then [0x0D as char] + Unescape(s[2..])
        else if code == 0x74 then [0x09 as char] + Unescape(s[2..])
        else if code == 0x5C || code == 0x22 then [s[1]] + Unescape(s[2..])
        else [s[0]] + Unescape(s[1..])
  {
    if |s| == 1 {
      assert s[1..] == "" && [s[0]] + "" == s;
    } else {
      DecodeCodes(s[1]);
    }
    hide Decode;
  }

  lemma UnescapePlain(s: string)
    requires s != "" && s[0] as int != 0x5C
    ensures Unescape(s) == [s[0]] + Unescape(s[1..])
  {
  }
}
