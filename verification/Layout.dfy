// Where the scanners land on well-laid JSON text. A layout is a row of cells,
// each a separator without quotes followed by one encoded string literal, and
// whatever text comes after them.
module Layout {
  import opened Sequences
  import opened Text
  import opened Escaping
  import opened Scanner

  datatype Cell = Cell(pre: string, value: string)

  function Literal(v: string): string { "\"" + Escape(v) + "\"" }

  function Laid(c: Cell): string { c.pre + Literal(c.value) }

  function Render(cells: seq<Cell>, tail: string): string {
    if cells == [] then tail
    else Laid(cells[0]) + Render(cells[1..], tail)
  }

  // The length of the first n cells.
  function Width(cells: seq<Cell>, n: nat): nat
    requires n <= |cells|
  {
    if n == 0 then 0
    else |Laid(cells[0])| + Width(cells[1..], n - 1)
  }

  predicate IsPunctuation(c: char) { c in ":,{}" }

  // A separator: no quote, and some punctuation no key contains.
  predicate Separator(text: string) {
    '"' !in text && exists i :: 0 <= i < |text| && IsPunctuation(text[i])
  }

  predicate WellLaid(cells: seq<Cell>) {
    forall i :: 0 <= i < |cells| ==> Separator(cells[i].pre)
  }

  // The keys of the protocol: nothing to escape, and no punctuation.
  predicate SimpleKey(key: string) {
    key != "" && forall c :: c in key ==> EscapeChar(c) == [c] && !IsPunctuation(c)
  }

  // -------------------------------------------------- token hits on a value

  predicate EndsWith(s: string, suffix: string) {
    |suffix| <= |s| && s[|s| - |suffix|..] == suffix
  }

  // The token "key" ends at the closing quote of the literal of v.
  predicate Hits(v: string, key: string) { EndsWith(Literal(v), Token(key)) }

  // That happens when the value is the key, or ends with a quote and the key.
  predicate LooksLike(v: string, key: string) { v == key || EndsWith(v, "\"" + key) }

  // A quote in an encoded string comes from a quote of the original.
  lemma {:induction false} QuoteOrigin(v: string, i: nat) returns (j: nat)
    requires i < |Escape(v)| && Escape(v)[i] == '"'
    ensures j < |v| && v[j] == '"'
    ensures Escape(v)[i + 1..] == Escape(v[j + 1..])
    decreases |v|
  {
    var e, rest := EscapeChar(v[0]), Escape(v[1..]);
    if i < |e| {
      j := 0;
      assert (e + rest)[2..] == rest;
    } else {
      j := QuoteOrigin(v[1..], i - |e|);
      assert v[1..][j + 1..] == v[j + 2..];
      assert (e + rest)[i + 1..] == rest[i - |e| + 1..];
      j := j + 1;
    }
  }

  lemma EndsWithQuoted(e: string, key: string)
    ensures EndsWith("\"" + e + "\"", Token(key)) <==> e == key || EndsWith(e, "\"" + key)
  {
    var lit := "\"" + e + "\"";
    if |key| <= |e| {
      var x := |e| - |key|;
      var end := lit[x..];
      assert |end| == |Token(key)| && end[|key| + 1] == '"';
      assert end[1..|key| + 1] == e[x..];
      assert Token(key)[1..|key| + 1] == key;
      assert x == 0 ==> end[0] == '"' && e[x..] == e;
      assert end == [end[0]] + e[x..] + "\"";
      if x > 0 {
        assert end[0] == e[x - 1];
        assert e[x - 1..] == [e[x - 1]] + e[x..];
        assert ("\"" + key)[0] == '"' && ("\"" + key)[1..] == key;
      }
    }
  }

  lemma {:induction false} HitsLooksLike(v: string, key: string)
    requires SimpleKey(key) && EndsWith(Escape(v), "\"" + key)
    ensures EndsWith(v, "\"" + key)
  {
    EscapePlain(key);
    var x := SplitQuoted(Escape(v), key);
    var j := QuoteOrigin(v, x);
    hide Escape, SimpleKey;
    EscapeInjective(v[j + 1..], key);
    QuotedTail(v, j, key);
  }

  lemma QuotedTail(v: string, j: nat, key: string)
    requires j < |v| && v[j] == '"' && v[j + 1..] == key
    ensures EndsWith(v, "\"" + key)
  {
    assert v[j..] == [v[j]] + v[j + 1..];
  }

  // Where the quote stands when a string ends with a quote and the key.
  lemma SplitQuoted(s: string, key: string) returns (x: nat)
    requires EndsWith(s, "\"" + key)
    ensures x < |s| && s[x] == '"' && s[x + 1..] == key
  {
    x := |s| - |key| - 1;
    assert s[x..] == "\"" + key;
    assert s[x] == s[x..][0];
    assert s[x + 1..] == s[x..][1..];
  }

  lemma {:induction false} EscapeQuoted(key: string)
    requires SimpleKey(key)
    ensures Escape("\"" + key) == "\\\"" + key
  {
    EscapePlain(key);
    var t := "\"" + key;
    assert t[0] == '"' && t[1..] == key;
  }

  lemma SuffixOf(w: string, t: string)
    ensures EndsWith(w + t, t)
  {
  }

  lemma {:induction false} LooksLikeHits(v: string, key: string)
    requires SimpleKey(key) && EndsWith(v, "\"" + key)
    ensures EndsWith(Escape(v), "\"" + key)
  {
    hide Escape, SimpleKey;
    var t := "\"" + key;
    var w := v[..|v| - |t|];
    assert v == w + t;
    EscapeConcat(w, t);
    EscapeQuoted(key);
    var e := Escape(w);
    assert e + ("\\\"" + key) == (e + "\\") + t;
    SuffixOf(e + "\\", t);
  }

  // Only such values hit a key: quotes inside a value are escaped.
  lemma HitsIffLooksLike(v: string, key: string)
    requires SimpleKey(key)
    ensures Hits(v, key) <==> LooksLike(v, key)
  {
    EndsWithQuoted(Escape(v), key);
    EscapePlain(key);
    if Escape(v) == key { EscapeInjective(v, key); }
    if EndsWith(Escape(v), "\"" + key) { HitsLooksLike(v, key); }
    if EndsWith(v, "\"" + key) { LooksLikeHits(v, key); }
  }

  // ------------------------------------------------- where a token can end

  lemma TokenShape(src: string, key: string, i: nat)
    requires SimpleKey(key) && MatchesAt(src, Token(key), i)
    ensures src[i] == '"' && src[i + |key| + 1] == '"'
    ensures forall j :: i < j < i + |key| + 1 ==>
              src[j] == key[j - i - 1] && src[j] != '"' && src[j] != '\\' && !IsPunctuation(src[j])
  {
    var t := Token(key);
    assert t[0] == '"' && t[|key| + 1] == '"';
    MatchIndex(src, t, i, 0);
    MatchIndex(src, t, i, |key| + 1);
    forall j | i < j < i + |key| + 1
      ensures src[j] == key[j - i - 1] && src[j] != '"' && src[j] != '\\' && !IsPunctuation(src[j])
    {
      MatchIndex(src, t, i, j - i);
      assert t[j - i] == key[j - i - 1] && key[j - i - 1] in key;
    }
  }

  // Not in a separator, nor at the quote that follows it.
  lemma NotInSeparator(src: string, key: string, i: nat, b: nat, pre: string)
    requires SimpleKey(key) && MatchesAt(src, Token(key), i)
    requires MatchesAt(src, pre, b) && Separator(pre)
    requires b <= i + |key| + 1
    ensures b + |pre| < i + |key| + 1
  {
    TokenShape(src, key, i);
    assert forall j :: b <= j < b + |pre| ==> src[j] == pre[j - b] && pre[j - b] in pre;
    var x :| 0 <= x < |pre| && IsPunctuation(pre[x]);
    assert IsPunctuation(src[b + x]);
  }

  // Not inside the literal that starts at o.
  lemma NotInLiteral(src: string, key: string, i: nat, o: nat, v: string)
    requires SimpleKey(key) && MatchesAt(src, Token(key), i)
    requires MatchesAt(src, Literal(v), o)
    requires o < i + |key| + 1
    ensures o + |Literal(v)| <= i + |key| + 2
  {
    TokenShape(src, key, i);
    var e, lit := i + |key| + 1, Literal(v);
    assert src[e - 1] != '\\';
    if e < o + |lit| - 1 {
      MatchIndex(src, lit, o, e - o);
      MatchIndex(src, lit, o, e - o - 1);
      assert lit[e - o] == Escape(v)[e - o - 1];
      EscapedQuote(v, e - o - 1);
    }
  }

  // At the literal's closing quote exactly when the value hits the key.
  lemma AtClosingQuote(src: string, key: string, i: nat, o: nat, v: string)
    requires SimpleKey(key) && MatchesAt(src, Literal(v), o)
    requires i + |Token(key)| == o + |Literal(v)|
    ensures MatchesAt(src, Token(key), i) <==> Hits(v, key)
  {
    var lit := Literal(v);
    MatchIndex(src, lit, o, 0);
    if i >= o {
      assert lit == lit[..i - o] + lit[i - o..];
      MatchSplit(src, lit[..i - o], lit[i - o..], o);
      MatchSame(src, lit[i - o..], Token(key), i);
    }
    if MatchesAt(src, Token(key), i) {
      TokenShape(src, key, i);
    }
  }

  lemma MatchSame(s: string, a: string, b: string, i: nat)
    requires MatchesAt(s, a, i) && |a| == |b|
    ensures MatchesAt(s, b, i) <==> a == b
  {
    if MatchesAt(s, b, i) {
      assert forall j :: 0 <= j < |a| ==> a[j] == s[i + j] == b[j];
    }
  }

  // An occurrence that ends after position b ends no earlier than the cell laid
  // at b, and exactly there only if the cell's value hits the key.
  lemma CellOccurrence(src: string, b: nat, c: Cell, key: string, i: nat)
    requires SimpleKey(key) && Separator(c.pre)
    requires MatchesAt(src, Laid(c), b)
    requires MatchesAt(src, Token(key), i) && b < i + |Token(key)|
    ensures var end := b + |Laid(c)|;
      end <= i + |Token(key)| && (end == i + |Token(key)| ==> Hits(c.value, key))
  {
    var o := b + |c.pre|;
    MatchSplit(src, c.pre, Literal(c.value), b);
    NotInSeparator(src, key, i, b, c.pre);
    NotInLiteral(src, key, i, o, c.value);
    if i + |Token(key)| == o + |Literal(c.value)| {
      AtClosingQuote(src, key, i, o, c.value);
    }
  }

  // No occurrence of the key's token ends within the first b characters.
  ghost predicate NoneWithin(src: string, key: string, b: nat) {
    forall i: nat :: MatchesAt(src, Token(key), i) ==> b < i + |Token(key)|
  }

  // The first value that hits the key, when no earlier token occurrence exists.
  lemma HitFound(src: string, b: nat, c: Cell, key: string)
    requires SimpleKey(key) && Separator(c.pre) && Hits(c.value, key)
    requires MatchesAt(src, Laid(c), b) && NoneWithin(src, key, b)
    ensures TokenEnd(src, key) == Some(b + |Laid(c)|)
  {
    MatchSplit(src, c.pre, Literal(c.value), b);
    var i0 := b + |Laid(c)| - |Token(key)|;
    AtClosingQuote(src, key, i0, b + |c.pre|, c.value);
    forall j | 0 <= j < i0 ensures !MatchesAt(src, Token(key), j) {
      if MatchesAt(src, Token(key), j) { CellOccurrence(src, b, c, key, j); }
    }
    FindIs(src, Token(key), 0, i0);
  }

  lemma MissSkipped(src: string, b: nat, c: Cell, key: string)
    requires SimpleKey(key) && Separator(c.pre) && !Hits(c.value, key)
    requires MatchesAt(src, Laid(c), b) && NoneWithin(src, key, b)
    ensures NoneWithin(src, key, b + |Laid(c)|)
  {
    forall i: nat | MatchesAt(src, Token(key), i) ensures b + |Laid(c)| < i + |Token(key)| {
      CellOccurrence(src, b, c, key, i);
    }
  }

  lemma {:induction false} MissesSkipped(src: string, b: nat, cells: seq<Cell>, tail: string, key: string, n: nat)
    requires SimpleKey(key) && WellLaid(cells) && n <= |cells|
    requires forall m :: 0 <= m < n ==> !Hits(cells[m].value, key)
    requires MatchesAt(src, Render(cells, tail), b) && NoneWithin(src, key, b)
    ensures NoneWithin(src, key, b + Width(cells, n))
    decreases n
  {
    if n > 0 {
      LaidHead(src, b, cells, tail);
      MissSkipped(src, b, cells[0], key);
      MissesSkipped(src, b + |Laid(cells[0])|, cells[1..], tail, key, n - 1);
    }
  }

  // Searching a layout for a key finds the first value that hits it: the result
  // is the token that ends at that value's closing quote.
  lemma FirstHit(src: string, b: nat, cells: seq<Cell>, tail: string, key: string, n: nat)
    returns (end: nat)
    requires SimpleKey(key) && WellLaid(cells)
    requires n < |cells| && Hits(cells[n].value, key)
    requires forall m :: 0 <= m < n ==> !Hits(cells[m].value, key)
    requires MatchesAt(src, Render(cells, tail), b) && NoneWithin(src, key, b)
    ensures TokenEnd(src, key) == Some(end)
    ensures MatchesAt(src, Render(cells[n + 1..], tail), end)
  {
    hide *;
    MissesSkipped(src, b, cells, tail, key, n);
    CellLaid(src, b, cells, tail, n);
    end := CellHit(src, b + Width(cells, n), cells, key, n);
  }

  lemma CellHit(src: string, o: nat, cells: seq<Cell>, key: string, n: nat) returns (end: nat)
    requires SimpleKey(key) && WellLaid(cells) && n < |cells| && Hits(cells[n].value, key)
    requires MatchesAt(src, Laid(cells[n]), o) && NoneWithin(src, key, o)
    ensures end == o + |Laid(cells[n])| && TokenEnd(src, key) == Some(end)
  {
    HitFound(src, o, cells[n], key);
    end := o + |Laid(cells[n])|;
  }

  lemma {:induction false} CellLaid(src: string, b: nat, cells: seq<Cell>, tail: string, n: nat)
    requires n < |cells| && MatchesAt(src, Render(cells, tail), b)
    ensures MatchesAt(src, Laid(cells[n]), b + Width(cells, n))
    ensures MatchesAt(src, Render(cells[n + 1..], tail), b + Width(cells, n) + |Laid(cells[n])|)
  {
    LaidFrom(src, b, cells, tail, n);
    LaidHead(src, b + Width(cells, n), cells[n..], tail);
    assert cells[n..][1..] == cells[n + 1..];
  }

  lemma {:induction false} LaidHead(src: string, b: nat, cells: seq<Cell>, tail: string)
    requires cells != [] && MatchesAt(src, Render(cells, tail), b)
    ensures MatchesAt(src, Laid(cells[0]), b)
    ensures MatchesAt(src, Render(cells[1..], tail), b + |Laid(cells[0])|)
  {
    MatchSplit(src, Laid(cells[0]), Render(cells[1..], tail), b);
  }

  // The cells from n on, where they are laid.
  lemma {:induction false} LaidFrom(src: string, b: nat, cells: seq<Cell>, tail: string, n: nat)
    requires n <= |cells| && MatchesAt(src, Render(cells, tail), b)
    ensures MatchesAt(src, Render(cells[n..], tail), b + Width(cells, n))
    decreases n
  {
    if n == 0 {
      assert cells[0..] == cells;
    } else {
      LaidHead(src, b, cells, tail);
      LaidFrom(src, b + |Laid(cells[0])|, cells[1..], tail, n - 1);
      assert cells[1..][n - 1..] == cells[n..];
    }
  }

  // ------------------------------------------------------ reading the value

  // The key's first token ends at position at, and there src goes on with text
  // without a colon, a colon, spaces, and the value.
  lemma ValueAfterColon(src: string, key: string, at: nat, gap: string, spaces: string, value: string)
    requires TokenEnd(src, key) == Some(at)
    requires MatchesAt(src, gap, at) && MatchesAt(src, ":", at + |gap|)
    requires MatchesAt(src, spaces, at + |gap| + 1) && MatchesAt(src, value, at + |gap| + 1 + |spaces|)
    requires ':' !in gap && (forall c :: c in spaces ==> IsSpace(c))
    requires value != "" && !IsSpace(value[0])
    ensures ValueStart(src, key) == Some(at + |gap| + 1 + |spaces|)
  {
    var c := at + |gap|;
    forall j | at <= j < c ensures src[j] != ':' {
      MatchIndex(src, gap, at, j - at);
      assert gap[j - at] in gap;
    }
    MatchIndex(src, ":", c, 0);
    FindChar(src, ':', at, c);
    var p := c + 1 + |spaces|;
    forall j | c + 1 <= j < p ensures IsSpace(src[j]) {
      MatchIndex(src, spaces, c + 1, j - c - 1);
      assert spaces[j - c - 1] in spaces;
    }
    MatchIndex(src, value, p, 0);
    SpacesSkipped(src, c + 1, p);
  }

  lemma {:induction false} SpacesSkipped(s: string, pos: nat, end: nat)
    requires pos <= end < |s| && !IsSpace(s[end])
    requires forall i :: pos <= i < end ==> IsSpace(s[i])
    ensures SkipSpaces(s, pos) == end
    decreases end - pos
  {
    if pos < end { SpacesSkipped(s, pos + 1, end); }
  }

  // ------------------------------------------------------ reading a literal

  // The character after an encoded string is not escaped, and no quote inside
  // it closes the literal.
  lemma {:induction false} EncodedStaysOpen(src: string, start: nat, v: string)
    requires MatchesAt(src, Escape(v), start)
    ensures !EscapedAt(src, start, start + |Escape(v)|)
    ensures forall i :: start <= i < start + |Escape(v)| ==> !ClosesAt(src, start, i)
    decreases |v|
  {
    if v == "" {
    } else {
      var n := |v| - 1;
      var w, e := v[..n], EscapeChar(v[n]);
      assert v == w + [v[n]];
      EscapeAppend(w, v[n]);
      MatchSplit(src, Escape(w), e, start);
      EncodedStaysOpen(src, start, w);
      UnitStaysOpen(src, start, start + |Escape(w)|, v[n]);
    }
  }

  lemma UnitStaysOpen(src: string, start: nat, m: nat, c: char)
    requires start <= m && MatchesAt(src, EscapeChar(c), m) && !EscapedAt(src, start, m)
    ensures !EscapedAt(src, start, m + |EscapeChar(c)|)
    ensures forall i :: m <= i < m + |EscapeChar(c)| ==> !ClosesAt(src, start, i)
  {
    var e := EscapeChar(c);
    MatchIndex(src, e, m, 0);
    if |e| == 2 {
      MatchIndex(src, e, m, 1);
      assert EscapedAt(src, start, m + 1);
    }
  }

  // The literal of v laid at p closes at its own end.
  lemma {:induction false} LiteralCloses(src: string, p: nat, v: string)
    requires MatchesAt(src, Literal(v), p)
    ensures src[p] == '"' && CloseQuote(src, p + 1, p + 1) == Some(p + 1 + |Escape(v)|)
    ensures src[p + 1..p + 1 + |Escape(v)|] == Escape(v)
  {
    var q := p + 1 + |Escape(v)|;
    MatchSplit(src, "\"" + Escape(v), "\"", p);
    MatchSplit(src, "\"", Escape(v), p);
    MatchIndex(src, "\"", p, 0);
    MatchIndex(src, "\"", q, 0);
    MatchSlice(src, Escape(v), p + 1);
    EncodedStaysOpen(src, p + 1, v);
    CloseQuoteIs(src, p + 1, q);
  }

  // Reading a literal laid at p gives back its value.
  lemma LiteralRead(src: string, key: string, p: nat, v: string)
    requires ValueStart(src, key) == Some(p) && MatchesAt(src, Literal(v), p)
    ensures ExtractString(src, key) == Some(v)
  {
    hide MatchesAt, ValueStart, CloseQuote, Escape, Unescape;
    LiteralCloses(src, p, v);
    UnescapeEscape(v);
  }

  // ------------------------------------------------------ reading an object

  // Text that opens no brace it does not close, closes none it did not open, and
  // ends outside any literal.
  ghost predicate Neutral(s: string) {
    && EndMode(Mode.Plain, s) == Mode.Plain && Balance(Mode.Plain, s) == 0
    && forall e :: 0 <= e <= |s| ==> Balance(Mode.Plain, s[..e]) >= 0
  }

  lemma NeutralConcat(s: string, t: string)
    requires Neutral(s) && Neutral(t)
    ensures Neutral(s + t)
  {
    BalanceConcat(Mode.Plain, s, t);
    forall e | 0 <= e <= |s + t| ensures Balance(Mode.Plain, (s + t)[..e]) >= 0 {
      if e <= |s| {
        assert (s + t)[..e] == s[..e];
      } else {
        assert (s + t)[..e] == s + t[..e - |s|];
        BalanceConcat(Mode.Plain, s, t[..e - |s|]);
      }
    }
  }

  predicate PlainText(s: string) { '"' !in s && '{' !in s && '}' !in s }

  lemma {:induction false} NeutralPlain(s: string)
    requires PlainText(s)
    ensures Neutral(s)
    decreases |s|
  {
    if s == "" {
    } else {
      var n := |s| - 1;
      NeutralPlain(s[..n]);
      assert s == s[..n] + [s[n]];
      BalanceStep(Mode.Plain, s[..n], s[n]);
      forall e | 0 <= e <= |s| ensures Balance(Mode.Plain, s[..e]) >= 0 {
        if e <= n { assert s[..n][..e] == s[..e]; } else { assert s[..e] == s; }
      }
    }
  }

  lemma NeutralLiteral(v: string)
    ensures Neutral(Literal(v))
  {
    var lit := Literal(v);
    var q := |lit| - 1;
    assert lit[1..q] == Escape(v);
    EncodedStaysOpen(lit, 1, v);
    forall e | 1 <= e <= q
      ensures Balance(Mode.Plain, lit[..e]) == 0
      ensures EndMode(Mode.Plain, lit[..e]) == (if EscapedAt(lit, 1, e) then AfterBackslash else InString)
    {
      LiteralMode(lit, e);
    }
    assert lit == lit[..q] + [lit[q]];
    BalanceStep(Mode.Plain, lit[..q], lit[q]);
    forall e | 0 <= e <= |lit| ensures Balance(Mode.Plain, lit[..e]) >= 0 {
      if e == |lit| { assert lit[..e] == lit; }
    }
  }

  // Reading an object laid at p gives back its whole text.
  lemma ObjectRead(src: string, key: string, p: nat, inner: string)
    requires ValueStart(src, key) == Some(p) && MatchesAt(src, "{" + inner + "}", p)
    requires Neutral(inner)
    ensures ExtractObject(src, key) == Some("{" + inner + "}")
  {
    var obj := "{" + inner + "}";
    MatchSlice(src, obj, p);
    MatchIndex(src, obj, p, 0);
    WholeBalance(inner);
    hide MatchesAt, ValueStart, Balance, Neutral;
    forall e | p < e < p + |obj| ensures Balance(Mode.Plain, src[p..e]) != 0 {
      CutOfObject(src, inner, p, e);
      OpenBalance(inner, e - p - 1);
    }
    BalancedEndIs(src, p, p + |obj|);
  }

  lemma CutOfObject(src: string, inner: string, p: nat, e: nat)
    requires p < e < p + |inner| + 2 <= |src| && src[p..p + |inner| + 2] == "{" + inner + "}"
    ensures src[p..e] == "{" + inner[..e - p - 1]
  {
    assert src[p..e] == src[p..p + |inner| + 2][..e - p];
    assert ("{" + inner + "}")[..e - p] == "{" + inner[..e - p - 1];
  }

  lemma WholeBalance(inner: string)
    requires Neutral(inner)
    ensures Balance(Mode.Plain, "{" + inner + "}") == 0
  {
    BalanceConcat(Mode.Plain, "{", inner);
    BalanceConcat(Mode.Plain, "{" + inner, "}");
    assert Balance(Mode.Plain, "{") == 1 && EndMode(Mode.Plain, "{") == Mode.Plain by { assert "{"[1..] == ""; }
    assert Balance(Mode.Plain, "}") == -1 by { assert "}"[1..] == ""; }
  }

  // Before its last brace the object is still open.
  lemma OpenBalance(inner: string, n: nat)
    requires Neutral(inner) && n <= |inner|
    ensures Balance(Mode.Plain, "{" + inner[..n]) > 0
  {
    BalanceConcat(Mode.Plain, "{", inner[..n]);
    assert Balance(Mode.Plain, "{") == 1 && EndMode(Mode.Plain, "{") == Mode.Plain by { assert "{"[1..] == ""; }
  }
}
