// The two hand-written scanners of Protocol: extractStringValue and
// extractObjectValue. Each locates a key by its first occurrence as a quoted
// token, then the next colon, then reads one value with a flag-driven loop.
module Scanner {
  import opened Sequences
  import opened Text
  import opened Escaping

  // -------------------------------------------------------- finding a value

  function Token(key: string): string { "\"" + key + "\"" }

  // Where the key's first token ends.
  function TokenEnd(src: string, key: string): (r: Option<nat>)
    ensures r.Some? ==> |Token(key)| <= r.value <= |src|
  {
    match Find(src, Token(key), 0)
    case None => None
    case Some(p) => Some(p + |Token(key)|)
  }

  // Position of the first non-space after the colon that follows the key.
  function ValueStart(src: string, key: string): (r: Option<nat>)
    ensures r.Some? ==> r.value <= |src|
  {
    match TokenEnd(src, key)
    case None => None
    case Some(end) =>
      match Find(src, ":", end)
      case None => None
      case Some(c) => Some(SkipSpaces(src, c + 1))
  }

  // The value of a key starts at p: t is the first place of its token, c of a colon
  // after that, and only spaces stand between the colon and p.
  ghost predicate StartsAt(src: string, key: string, t: nat, c: nat, p: nat) {
    && FirstAt(src, "\"" + key + "\"", 0, t)
    && FirstAt(src, ":", t + |key| + 2, c)
    && c < p <= |src| && (forall i :: c < i < p ==> IsSpace(src[i])) && (p < |src| ==> !IsSpace(src[p]))
  }

  // The key search, for every text and key.
  lemma ValueStartIs(src: string, key: string, p: nat)
    ensures ValueStart(src, key) == Some(p) <==> exists t: nat, c: nat :: StartsAt(src, key, t, c, p)
  {
    hide Find, SkipSpaces, MatchesAt, FirstAt;
    assert Token(key) == "\"" + key + "\"" && |Token(key)| == |key| + 2;
    if ValueStart(src, key) == Some(p) {
      var t := Find(src, Token(key), 0).value;
      var c := Find(src, ":", t + |Token(key)|).value;
      FindFirst(src, Token(key), 0, t);
      FindFirst(src, ":", t + |key| + 2, c);
      assert StartsAt(src, key, t, c, p);
    }
    if t: nat, c: nat :| StartsAt(src, key, t, c, p) {
      FindFirst(src, Token(key), 0, t);
      FindFirst(src, ":", t + |key| + 2, c);
      SkipSpacesIs(src, c + 1, p);
    }
  }

  method LocateValue(src: string, key: string) returns (r: Option<nat>)
    ensures r == ValueStart(src, key)
  {
    var token := Token(key);
    var pos := Find(src, token, 0);
    if pos.None? { return None; }
    pos := Find(src, ":", pos.value + |token|);
    if pos.None? { return None; }
    var p := SkipSpacesLoop(src, pos.value + 1);
    return Some(p);
  }

  // -------------------------------------------------------- string literals

  // The character at i, in a literal whose text starts at start, is escaped: it
  // follows an odd run of backslashes.
  predicate EscapedAt(s: string, start: nat, i: nat)
    requires i <= |s|
  {
    i > start && s[i - 1] == '\\' && !EscapedAt(s, start, i - 1)
  }

  predicate ClosesAt(s: string, start: nat, i: nat) {
    start <= i < |s| && s[i] == '"' && !EscapedAt(s, start, i)
  }

  // The first quote from pos on that is not escaped.
  function CloseQuote(s: string, start: nat, pos: nat): (r: Option<nat>)
    requires start <= pos
    ensures r.Some? ==> pos <= r.value && ClosesAt(s, start, r.value)
    ensures r.Some? ==> forall i :: pos <= i < r.value ==> !ClosesAt(s, start, i)
    ensures r.None? ==> forall i :: pos <= i ==> !ClosesAt(s, start, i)
    decreases |s| - pos
  {
    if pos >= |s| then None
    else if ClosesAt(s, start, pos) then Some(pos)
    else CloseQuote(s, start, pos + 1)
  }

  lemma {:induction false} CloseQuoteIs(s: string, start: nat, q: nat)
    requires ClosesAt(s, start, q)
    requires forall i :: start <= i < q ==> !ClosesAt(s, start, i)
    ensures CloseQuote(s, start, start) == Some(q)
  {
  }

  function ExtractString(src: string, key: string): Option<string> {
    match ValueStart(src, key)
    case None => None
    case Some(p) =>
      if p < |src| && src[p] == '"' then
        match CloseQuote(src, p + 1, p + 1)
        case None => None
        case Some(q) => Some(Unescape(src[p + 1..q]))
      else None
  }

  // A literal opens at p and closes at q, the first unescaped quote after it.
  ghost predicate LiteralAt(src: string, p: nat, q: nat) {
    p < |src| && src[p] as int == 0x22 && FirstClose(src, p + 1, q)
  }

  ghost predicate FirstClose(src: string, start: nat, q: nat) {
    ClosesAt(src, start, q) && forall i :: start <= i < q ==> !ClosesAt(src, start, i)
  }

  // What extractStringValue returns, for every source and key: nothing unless a
  // literal stands where the value starts; otherwise its decoded text.
  lemma StringIsFirstLiteral(src: string, key: string, p: nat, v: string)
    requires ValueStart(src, key) == Some(p)
    ensures ExtractString(src, key) == Some(v) <==>
      exists q: nat :: LiteralAt(src, p, q) && v == Unescape(src[p + 1..q])
  {
    if q: nat :| LiteralAt(src, p, q) && v == Unescape(src[p + 1..q]) {
      CloseQuoteIs(src, p + 1, q);
    }
    if ExtractString(src, key) == Some(v) {
      var q := CloseQuote(src, p + 1, p + 1).value;
      assert LiteralAt(src, p, q) && v == Unescape(src[p + 1..q]);
    }
  }

  lemma NoValueNoString(src: string, key: string)
    requires ValueStart(src, key) == None
    ensures ExtractString(src, key) == None && ExtractObject(src, key) == None
  {
  }

  // A character is escaped exactly after an odd run of backslashes.
  lemma {:induction false} OddRun(s: string, start: nat, i: nat, run: nat)
    requires start + run <= i <= |s|
    requires forall j :: i - run <= j < i ==> s[j] as int == 0x5C
    requires i - run == start || s[i - run - 1] as int != 0x5C
    ensures EscapedAt(s, start, i) <==> run % 2 == 1
    decreases run
  {
    if run > 0 { OddRun(s, start, i - 1, run - 1); }
  }

  // The scanning loop. Its raw text, which re-inserts every backslash it skipped,
  // is the source text up to the literal's closing quote.
  method ReadLiteral(src: string, start: nat) returns (r: Option<string>)
    requires start <= |src|
    ensures match CloseQuote(src, start, start)
      case None => r.None?
      case Some(q) => r == Some(Unescape(src[start..q]))
  {
    var pos := start;
    var raw := "";
    var escaped := false;
    while pos < |src|
      invariant start <= pos <= |src|
      invariant escaped == EscapedAt(src, start, pos)
      invariant src[start..pos] == raw + (if escaped then "\\" else "")
      invariant forall i :: start <= i < pos ==> !ClosesAt(src, start, i)
    {
      var ch := src[pos];
      assert src[start..pos + 1] == src[start..pos] + [ch];
      if escaped {
        raw := raw + "\\" + [ch];
        escaped := false;
      } else if ch == '\\' {
        escaped := true;
      } else if ch == '"' {
        CloseQuoteIs(src, start, pos);
        assert src[start..pos] == raw;
        var value := UnescapeJson(raw);
        return Some(value);
      } else {
        raw := raw + [ch];
      }
      pos := pos + 1;
    }
    r := None;
  }

  method ExtractStringValue(src: string, key: string) returns (r: Option<string>)
    ensures r == ExtractString(src, key)
  {
    var at := LocateValue(src, key);
    if at.None? { return None; }
    var pos := at.value;
    if pos >= |src| || src[pos] != '"' { return None; }
    r := ReadLiteral(src, pos + 1);
  }

  // ----------------------------------------------------------- brace balance

  // Where a character scanner is with respect to string literals.
  datatype Mode = Plain | InString | AfterBackslash

  function NextMode(m: Mode, c: char): Mode {
    match m
    case Plain => if c == '"' then InString else Plain
    case InString => if c == '\\' then AfterBackslash else if c == '"' then Plain else InString
    case AfterBackslash => InString
  }

  function Weight(m: Mode, c: char): int {
    if m.Plain? && c == '{' then 1 else if m.Plain? && c == '}' then -1 else 0
  }

  function EndMode(m: Mode, s: string): Mode
    decreases |s|
  {
    if s == "" then m else EndMode(NextMode(m, s[0]), s[1..])
  }

  // Opening minus closing braces of s outside string literals.
  function Balance(m: Mode, s: string): int
    decreases |s|
  {
    if s == "" then 0 else Weight(m, s[0]) + Balance(NextMode(m, s[0]), s[1..])
  }

  lemma {:induction false} BalanceConcat(m: Mode, s: string, t: string)
    ensures EndMode(m, s + t) == EndMode(EndMode(m, s), t)
    ensures Balance(m, s + t) == Balance(m, s) + Balance(EndMode(m, s), t)
    decreases |s|
  {
    if s == "" {
      assert s + t == t;
    } else {
      BalanceConcat(NextMode(m, s[0]), s[1..], t);
      assert (s + t)[1..] == s[1..] + t;
    }
  }

  lemma {:induction false} BalanceStep(m: Mode, s: string, c: char)
    ensures EndMode(m, s + [c]) == NextMode(EndMode(m, s), c)
    ensures Balance(m, s + [c]) == Balance(m, s) + Weight(EndMode(m, s), c)
  {
    BalanceConcat(m, s, [c]);
    assert [c][1..] == "";
  }

  lemma EmptyBalance()
    ensures Balance(Plain, "") == 0 && EndMode(Plain, "") == Plain
  {
  }

  // A balance stays within its text's length, hence within an int for any frame.
  lemma {:induction false} BalanceRange(m: Mode, s: string)
    ensures -|s| <= Balance(m, s) <= |s|
    decreases |s|
  {
    if s == "" {
    } else {
      BalanceRange(NextMode(m, s[0]), s[1..]);
    }
  }

  // The end of the shortest non-empty stretch from start with balance zero,
  // among the ends from e on.
  function BalancedEnd(s: string, start: nat, e: nat): (r: Option<nat>)
    requires start < e
    ensures r.Some? ==> e <= r.value <= |s| && Balance(Plain, s[start..r.value]) == 0
    ensures r.Some? ==> forall i :: e <= i < r.value ==> Balance(Plain, s[start..i]) != 0
    ensures r.None? ==> forall i :: e <= i <= |s| ==> Balance(Plain, s[start..i]) != 0
    decreases |s| - e
  {
    if e > |s| then None
    else if Balance(Plain, s[start..e]) == 0 then Some(e)
    else BalancedEnd(s, start, e + 1)
  }

  lemma {:induction false} BalancedEndIs(s: string, start: nat, e: nat)
    requires start < e <= |s| && Balance(Plain, s[start..e]) == 0
    requires forall i :: start < i < e ==> Balance(Plain, s[start..i]) != 0
    ensures BalancedEnd(s, start, start + 1) == Some(e)
  {
  }

  function ExtractObject(src: string, key: string): Option<string> {
    match ValueStart(src, key)
    case None => None
    case Some(p) =>
      if p < |src| && src[p] == '{' then
        match BalancedEnd(src, p, p + 1)
        case None => None
        case Some(e) => Some(src[p..e])
      else None
  }

  // depth is the balance of what was read and never leaves [0, bytes read]; the
  // two flags are the mode.
  method ReadObject(src: string, start: nat) returns (r: Option<string>)
    requires start < |src| && src[start] == '{'
    ensures match BalancedEnd(src, start, start + 1)
      case None => r.None?
      case Some(e) => r == Some(src[start..e])
  {
    var pos, depth := start, 0;
    var inString, escaped := false, false;
    EmptyBalance();
    assert src[start..pos] == "";
    hide Balance, EndMode;
    while pos < |src|
      invariant start <= pos <= |src|
      invariant depth == Balance(Plain, src[start..pos])
      invariant ModeOf(inString, escaped) == EndMode(Plain, src[start..pos])
      invariant !inString ==> !escaped
      invariant pos == start ==> !inString
      invariant 0 <= depth <= pos - start && (pos > start ==> 0 < depth)
      invariant forall i :: start < i <= pos ==> Balance(Plain, src[start..i]) != 0
    {
      var ch := src[pos];
      assert src[start..pos + 1] == src[start..pos] + [ch];
      BalanceStep(Plain, src[start..pos], ch);
      if inString {
        if escaped {
          escaped := false;
        } else if ch == '\\' {
          escaped := true;
        } else if ch == '"' {
          inString := false;
        }
      } else if ch == '"' {
        inString := true;
      } else {
        if ch == '{' { depth := depth + 1; }
        if ch == '}' {
          depth := depth - 1;
          if depth == 0 {
            BalancedEndIs(src, start, pos + 1);
            return Some(src[start..pos + 1]);
          }
        }
      }
      pos := pos + 1;
    }
    r := None;
  }

  method ExtractObjectValue(src: string, key: string) returns (r: Option<string>)
    ensures r == ExtractObject(src, key)
  {
    var at := LocateValue(src, key);
    if at.None? { return None; }
    var pos := at.value;
    if pos >= |src| || src[pos] != '{' { return None; }
    r := ReadObject(src, pos);
  }

  function ModeOf(inString: bool, escaped: bool): Mode {
    if !inString then Plain else if escaped then AfterBackslash else InString
  }

  // ------------------------------- the balance, read off by skipping literals

  // The braces of s outside string literals, found by jumping from each opening
  // quote to the quote that closes it.
  function Braces(s: string): string
    decreases |s|
  {
    if s == "" then ""
    else if s[0] == '"' then
      match CloseQuote(s, 1, 1)
      case None => ""
      case Some(q) => Braces(s[q + 1..])
    else if s[0] == '{' || s[0] == '}' then [s[0]] + Braces(s[1..])
    else Braces(s[1..])
  }

  function Opening(braces: string): int {
    if braces == "" then 0
    else (if braces[0] == '{' then 1 else -1) + Opening(braces[1..])
  }

  // Inside a literal the flag loop is in mode AfterBackslash exactly where the
  // backslash-run rule says the next character is escaped.
  lemma {:induction false} LiteralMode(s: string, i: nat)
    requires 1 <= i <= |s| && s[0] == '"'
    requires forall j :: 1 <= j < i ==> !ClosesAt(s, 1, j)
    ensures EndMode(Plain, s[..i]) == (if EscapedAt(s, 1, i) then AfterBackslash else InString)
    ensures Balance(Plain, s[..i]) == 0
  {
    if i == 1 {
      assert s[..1] == [s[0]];
      assert s[..1][1..] == "";
    } else {
      LiteralMode(s, i - 1);
      assert !ClosesAt(s, 1, i - 1);
      assert s[..i] == s[..i - 1] + [s[i - 1]];
      BalanceStep(Plain, s[..i - 1], s[i - 1]);
    }
  }

  // The flag-driven count equals the count over literal-skipping recursion.
  lemma {:induction false} BalanceIsBraces(s: string)
    ensures Balance(Plain, s) == Opening(Braces(s))
    decreases |s|
  {
    if s == "" {
    } else if s[0] == '"' {
      match CloseQuote(s, 1, 1)
      case None =>
        LiteralMode(s, |s|);
        assert s[..|s|] == s;
      case Some(q) =>
        LiteralMode(s, q);
        BalanceStep(Plain, s[..q], s[q]);
        assert s[..q + 1] == s[..q] + [s[q]];
        assert s == s[..q + 1] + s[q + 1..];
        BalanceConcat(Plain, s[..q + 1], s[q + 1..]);
        BalanceIsBraces(s[q + 1..]);
    } else {
      BalanceIsBraces(s[1..]);
    }
  }

  // What extractObjectValue returns, for every source and key: nothing unless a
  // brace stands where the value starts; otherwise the shortest non-empty text
  // from there whose braces outside literals balance, or nothing if there is none.
  lemma ObjectIsShortestBalanced(src: string, key: string)
    ensures match ExtractObject(src, key)
      case Some(obj) =>
        exists p, e :: ValueStart(src, key) == Some(p) && p < e <= |src| && src[p] == '{' &&
          obj == src[p..e] && Opening(Braces(obj)) == 0 &&
          (forall i :: p < i < e ==> Opening(Braces(src[p..i])) != 0)
      case None =>
        forall p :: ValueStart(src, key) == Some(p) && p < |src| && src[p] == '{' ==>
          forall i :: p < i <= |src| ==> Opening(Braces(src[p..i])) != 0
  {
    forall s: string ensures Balance(Plain, s) == Opening(Braces(s)) { BalanceIsBraces(s); }
    match ValueStart(src, key)
    case None =>
    case Some(p) =>
      if p < |src| && src[p] == '{' {
        match BalancedEnd(src, p, p + 1)
        case None =>
        case Some(e) => assert src[p..e] == ExtractObject(src, key).value;
      }
  }
}
