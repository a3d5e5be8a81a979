// Objects whose first members are string fields: which value a search for one of
// their keys reads.
module Fields {
  import opened Sequences
  import opened Text
  import opened Escaping
  import opened Scanner
  import opened Layout

  datatype Field = Field(key: string, value: string)

  // How members are separated: before the first key, between members, and
  // between key and value.
  datatype Style = Style(first: string, comma: string, colon: string) {
    predicate Valid() {
      && Separator(first) && Separator(comma) && ':' !in comma
      && colon != "" && colon[0] == ':'
      && (forall i :: 1 <= i < |colon| ==> IsSpace(colon[i]))
    }
  }

  function Cells(fields: seq<Field>, style: Style): seq<Cell> {
    if fields == [] then []
    else
      [Cell(style.first, fields[0].key), Cell(style.colon, fields[0].value)] +
      Cells(fields[1..], style.(first := style.comma))
  }

  lemma {:induction false} CellAt(fields: seq<Field>, style: Style, j: nat)
    requires j < |fields|
    ensures |Cells(fields, style)| == 2 * |fields|
    ensures Cells(fields, style)[2 * j] == Cell(if j == 0 then style.first else style.comma, fields[j].key)
    ensures Cells(fields, style)[2 * j + 1] == Cell(style.colon, fields[j].value)
    decreases |fields|
  {
    var rest := Cells(fields[1..], style.(first := style.comma));
    if |fields| > 1 {
      CellAt(fields[1..], style.(first := style.comma), if j == 0 then 0 else j - 1);
    }
    assert Cells(fields, style) ==
           [Cell(style.first, fields[0].key), Cell(style.colon, fields[0].value)] + rest;
  }

  predicate Distinct(fields: seq<Field>) {
    && (forall i :: 0 <= i < |fields| ==> SimpleKey(fields[i].key))
    && (forall i, j :: 0 <= i < j < |fields| ==> fields[i].key != fields[j].key)
  }

  // The first of the fields before i whose value looks like key i.
  function FirstLookalike(fields: seq<Field>, i: nat, from: nat): (r: Option<nat>)
    requires from <= i < |fields|
    ensures r.Some? ==> from <= r.value < i && LooksLike(fields[r.value].value, fields[i].key)
    ensures r.Some? ==> forall j :: from <= j < r.value ==> !LooksLike(fields[j].value, fields[i].key)
    ensures r.None? ==> forall j :: from <= j < i ==> !LooksLike(fields[j].value, fields[i].key)
    decreases i - from
  {
    if from == i then None
    else if LooksLike(fields[from].value, fields[i].key) then Some(from)
    else FirstLookalike(fields, i, from + 1)
  }

  // Whose value a search for key i returns: the field after the first lookalike
  // before it, or field i itself.
  function ReadIndex(fields: seq<Field>, i: nat): (m: nat)
    requires i < |fields|
    ensures m <= i
  {
    match FirstLookalike(fields, i, 0)
    case None => i
    case Some(j) => j + 1
  }

  lemma NoQuoteInside(k: string, key: string)
    requires '"' !in k
    ensures !EndsWith(k, "\"" + key)
  {
    var q := "\"" + key;
    assert q[0] == '"';
    if |q| <= |k| {
      assert k[|k| - |q|..][0] == k[|k| - |q|] && k[|k| - |q|] != '"';
    }
  }

  // Keys hit each other only when they are equal: they contain no quote.
  lemma KeyHits(k: string, key: string)
    requires SimpleKey(k) && SimpleKey(key)
    ensures Hits(k, key) <==> k == key
  {
    HitsIffLooksLike(k, key);
    assert '"' !in k;
    NoQuoteInside(k, key);
  }

  // Which cells hit key i: its own key cell, and the value cells that look alike.
  lemma {:induction false} CellHits(fields: seq<Field>, style: Style, i: nat, j: nat)
    requires Distinct(fields) && i < |fields| && j < |fields|
    ensures var cells := Cells(fields, style);
      && |cells| == 2 * |fields|
      && (Hits(cells[2 * j].value, fields[i].key) <==> j == i)
      && (Hits(cells[2 * j + 1].value, fields[i].key) <==> LooksLike(fields[j].value, fields[i].key))
  {
    CellAt(fields, style, j);
    KeyHits(fields[j].key, fields[i].key);
    assert j != i ==> fields[j].key != fields[i].key;
    HitsIffLooksLike(fields[j].value, fields[i].key);
  }

  lemma {:induction false} CellsWellLaid(fields: seq<Field>, style: Style)
    requires style.Valid()
    ensures WellLaid(Cells(fields, style))
  {
    var cells := Cells(fields, style);
    assert Separator(style.colon) by {
      assert IsPunctuation(style.colon[0]);
      assert forall i :: 1 <= i < |style.colon| ==> style.colon[i] != '"';
    }
    forall m | 0 <= m < |cells| ensures Separator(cells[m].pre) {
      CellCount(fields, style);
      CellAt(fields, style, m / 2);
    }
  }

  lemma {:induction false} CellCount(fields: seq<Field>, style: Style)
    ensures |Cells(fields, style)| == 2 * |fields|
  {
    if fields != [] { CellAt(fields, style, 0); }
  }

  // The first cell that hits key i.
  function HitCell(fields: seq<Field>, i: nat): nat
    requires i < |fields|
  {
    match FirstLookalike(fields, i, 0)
    case None => 2 * i
    case Some(j) => 2 * j + 1
  }

  lemma {:induction false} CellMisses(fields: seq<Field>, style: Style, i: nat, m: nat)
    requires Distinct(fields) && i < |fields| && m < HitCell(fields, i)
    ensures m < |Cells(fields, style)| && !Hits(Cells(fields, style)[m].value, fields[i].key)
  {
    CellHits(fields, style, i, m / 2);
    assert m == 2 * (m / 2) || m == 2 * (m / 2) + 1;
  }

  lemma {:induction false} HitCellHits(fields: seq<Field>, style: Style, i: nat)
    requires Distinct(fields) && i < |fields|
    ensures var n, cells := HitCell(fields, i), Cells(fields, style);
      n < |cells| && Hits(cells[n].value, fields[i].key)
  {
    var n := HitCell(fields, i);
    CellHits(fields, style, i, n / 2);
  }

  lemma {:induction false} HitCellIsFirst(fields: seq<Field>, style: Style, i: nat)
    requires Distinct(fields) && i < |fields|
    ensures var n, cells := HitCell(fields, i), Cells(fields, style);
      && n < |cells| && Hits(cells[n].value, fields[i].key)
      && forall m :: 0 <= m < n ==> !Hits(cells[m].value, fields[i].key)
  {
    HitCellHits(fields, style, i);
    forall m | 0 <= m < HitCell(fields, i) ensures !Hits(Cells(fields, style)[m].value, fields[i].key) {
      CellMisses(fields, style, i, m);
    }
  }

  // Reading key i of an object's string fields, laid at b in src with no earlier
  // occurrence of the key's token: whatever the values are, the text read is the
  // value of the field ReadIndex names.
  lemma {:induction false} FieldRead(src: string, b: nat, fields: seq<Field>, style: Style, tail: string, i: nat)
    requires Distinct(fields) && style.Valid() && i < |fields|
    requires MatchesAt(src, Render(Cells(fields, style), tail), b)
    requires NoneWithin(src, fields[i].key, b)
    ensures ExtractString(src, fields[i].key) == Some(fields[ReadIndex(fields, i)].value)
  {
    match FirstLookalike(fields, i, 0) {
      case None =>
        var at := HitEnds(src, b, fields, style, tail, i, 2 * i);
        ReadOwn(src, at, fields, style, tail, i);
      case Some(j) =>
        var at := HitEnds(src, b, fields, style, tail, i, 2 * j + 1);
        ReadNext(src, at, fields, style, tail, i, j);
    }
  }

  lemma HitEnds(src: string, b: nat, fields: seq<Field>, style: Style, tail: string, i: nat, n: nat) returns (at: nat)
    requires Distinct(fields) && style.Valid() && i < |fields| && n == HitCell(fields, i)
    requires MatchesAt(src, Render(Cells(fields, style), tail), b)
    requires NoneWithin(src, fields[i].key, b)
    ensures n < |Cells(fields, style)| && TokenEnd(src, fields[i].key) == Some(at)
    ensures MatchesAt(src, Render(Cells(fields, style)[n + 1..], tail), at)
  {
    var cells := Cells(fields, style);
    CellsWellLaid(fields, style);
    HitCellIsFirst(fields, style, i);
    at := FirstHit(src, b, cells, tail, fields[i].key, n);
  }

  // Past key i's own cell comes its value.
  lemma ReadOwn(src: string, at: nat, fields: seq<Field>, style: Style, tail: string, i: nat)
    requires style.Valid() && i < |fields| && |Cells(fields, style)| > 2 * i
    requires TokenEnd(src, fields[i].key) == Some(at)
    requires MatchesAt(src, Render(Cells(fields, style)[2 * i + 1..], tail), at)
    ensures ExtractString(src, fields[i].key) == Some(fields[i].value)
  {
    CellAt(fields, style, i);
    LaidHead(src, at, Cells(fields, style)[2 * i + 1..], tail);
    ReadAfter(src, fields[i].key, at, "", style, fields[i].value);
  }

  // Past the value of field j come a separator, the next key, and its value.
  lemma ReadNext(src: string, at: nat, fields: seq<Field>, style: Style, tail: string, i: nat, j: nat)
    requires style.Valid() && i < |fields| && j + 1 < |fields| && |Cells(fields, style)| > 2 * j + 1
    requires TokenEnd(src, fields[i].key) == Some(at) && SimpleKey(fields[j + 1].key)
    requires MatchesAt(src, Render(Cells(fields, style)[2 * j + 2..], tail), at)
    ensures ExtractString(src, fields[i].key) == Some(fields[j + 1].value)
  {
    hide MatchesAt, SimpleKey, ExtractString, TokenEnd, Separator, EscapeChar, IsSpace;
    var cells, next := Cells(fields, style), Cell(style.comma, fields[j + 1].key);
    CellAt(fields, style, j + 1);
    LaidHead(src, at, cells[2 * j + 2..], tail);
    assert cells[2 * j + 2..][1..] == cells[2 * j + 3..];
    LaidHead(src, at + |Laid(next)|, cells[2 * j + 3..], tail);
    KeyLiteral(fields[j + 1].key);
    ReadAfter(src, fields[i].key, at, Laid(next), style, fields[j + 1].value);
  }

  lemma KeyLiteral(key: string)
    requires SimpleKey(key)
    ensures Literal(key) == Token(key) && ':' !in Literal(key)
  {
    EscapePlain(key);
    assert IsPunctuation(':');
  }

  // The key's token ends at position at, and a colon-free gap, the colon and the
  // literal of v follow.
  lemma ReadAfter(src: string, key: string, at: nat, gap: string, style: Style, v: string)
    requires TokenEnd(src, key) == Some(at) && ':' !in gap && style.Valid()
    requires MatchesAt(src, gap, at) && MatchesAt(src, Laid(Cell(style.colon, v)), at + |gap|)
    ensures ExtractString(src, key) == Some(v)
  {
    var c, spaces := at + |gap|, style.colon[1..];
    assert style.colon == ":" + spaces;
    MatchSplit(src, style.colon, Literal(v), c);
    MatchSplit(src, ":", spaces, c);
    ValueAfterColon(src, key, at, gap, spaces, Literal(v));
    LiteralRead(src, key, c + 1 + |spaces|, v);
  }
}
