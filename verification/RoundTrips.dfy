// What the scanners read back from the texts both sides write: the server's
// parser inverts the client's printer, and the relay payload loses nothing.
module RoundTrips {
  import opened Sequences
  import opened Text
  import opened Escaping
  import opened Scanner
  import opened Layout
  import opened Fields
  import opened Messages

  // ----------------------------------------------------- objects as layouts

  lemma {:induction false} RenderTail(cells: seq<Cell>, t: string, u: string)
    ensures Render(cells, t + u) == Render(cells, t) + u
    decreases |cells|
  {
    if cells != [] { RenderTail(cells[1..], t, u); }
  }

  lemma {:induction false} RenderConcat(cells: seq<Cell>, more: seq<Cell>, t: string)
    ensures Render(cells + more, t) == Render(cells, Render(more, t))
    decreases |cells|
  {
    if cells == [] {
      assert cells + more == more;
    } else {
      RenderConcat(cells[1..], more, t);
      assert (cells + more)[1..] == cells[1..] + more;
    }
  }

  lemma {:induction false} MembersLayout(fields: seq<Field>, more: seq<Member>, style: Style)
    ensures CommaEach(StringMembers(fields) + more, style)
         == Render(Cells(fields, style.(first := style.comma)), CommaEach(more, style))
    decreases |fields|
  {
    if fields == [] {
      assert StringMembers(fields) + more == more;
    } else {
      MembersLayout(fields[1..], more, style);
      var members := StringMembers(fields) + more;
      assert members[1..] == StringMembers(fields[1..]) + more;
      CellsHead(fields, style.(first := style.comma), CommaEach(more, style));
    }
  }

  // The first field of a layout, as one member.
  lemma {:induction false} CellsHead(fields: seq<Field>, style: Style, tail: string)
    requires fields != []
    ensures Render(Cells(fields, style), tail)
         == style.first + MemberText(Member(fields[0].key, Literal(fields[0].value)), style)
            + Render(Cells(fields[1..], style.(first := style.comma)), tail)
  {
    var rest := Cells(fields[1..], style.(first := style.comma));
    var c1, c2 := Cell(style.first, fields[0].key), Cell(style.colon, fields[0].value);
    assert Cells(fields, style) == [c1, c2] + rest;
    RenderTwo(c1, c2, rest, tail);
    RegroupMember(style.first, Literal(c1.value), style.colon, Literal(fields[0].value), Render(rest, tail));
  }

  lemma RegroupMember(first: string, key: string, colon: string, value: string, more: string)
    ensures (first + key) + ((colon + value) + more) == first + (key + colon + value) + more
  {
  }

  lemma {:induction false} RenderTwo(c1: Cell, c2: Cell, rest: seq<Cell>, tail: string)
    ensures Render([c1, c2] + rest, tail) == Laid(c1) + (Laid(c2) + Render(rest, tail))
  {
    var cells := [c1, c2] + rest;
    assert cells[1..] == [c2] + rest && ([c2] + rest)[1..] == rest;
  }

  // An object whose first members are string fields is a layout of their cells.
  lemma {:induction false} ObjectLayout(fields: seq<Field>, more: seq<Member>, style: Style)
    requires fields != [] && style.first == "{"
    ensures ObjectText(StringMembers(fields) + more, style)
         == Render(Cells(fields, style), CommaEach(more, style) + "}")
  {
    JoinLayout(fields, more, style);
    RenderTail(Cells(fields, style), CommaEach(more, style), "}");
  }

  lemma {:induction false} JoinLayout(fields: seq<Field>, more: seq<Member>, style: Style)
    requires fields != [] && style.first == "{"
    ensures "{" + Join(StringMembers(fields) + more, style) == Render(Cells(fields, style), CommaEach(more, style))
  {
    var members := StringMembers(fields) + more;
    assert members[1..] == StringMembers(fields[1..]) + more;
    assert members[0] == Member(fields[0].key, Literal(fields[0].value));
    ConcatAssoc("{", MemberText(members[0], style), CommaEach(members[1..], style));
    MembersLayout(fields[1..], more, style);
    CellsHead(fields, style, CommaEach(more, style));
  }

  predicate Punctuated(style: Style) {
    style.Valid() && style.first == "{" && PlainText(style.comma) && PlainText(style.colon)
  }

  lemma NeutralMember(m: Member, style: Style)
    requires Punctuated(style) && Neutral(m.text)
    ensures Neutral(MemberText(m, style))
  {
    NeutralLiteral(m.key);
    NeutralPlain(style.colon);
    NeutralConcat(Literal(m.key), style.colon);
    NeutralConcat(Literal(m.key) + style.colon, m.text);
  }

  lemma {:induction false} NeutralCommaEach(members: seq<Member>, style: Style)
    requires Punctuated(style) && forall i :: 0 <= i < |members| ==> Neutral(members[i].text)
    ensures Neutral(CommaEach(members, style))
    decreases |members|
  {
    if members == [] {
      NeutralPlain("");
    } else {
      NeutralPlain(style.comma);
      NeutralMember(members[0], style);
      NeutralCommaEach(members[1..], style);
      NeutralConcat(style.comma, MemberText(members[0], style));
      NeutralConcat(style.comma + MemberText(members[0], style), CommaEach(members[1..], style));
    }
  }

  lemma NeutralJoin(members: seq<Member>, style: Style)
    requires Punctuated(style) && forall i :: 0 <= i < |members| ==> Neutral(members[i].text)
    ensures Neutral(Join(members, style))
  {
    if members == [] {
      NeutralPlain("");
    } else {
      NeutralMember(members[0], style);
      NeutralCommaEach(members[1..], style);
      NeutralConcat(MemberText(members[0], style), CommaEach(members[1..], style));
    }
  }

  // --------------------------------------------------- reading string fields

  // Whatever the values of an object's string fields, and whatever members come
  // after them, a search for key i reads the value of the field ReadIndex names:
  // its own, unless an earlier value other than the previous one looks like it.
  lemma FieldOfObject(fields: seq<Field>, more: seq<Member>, style: Style, i: nat)
    requires Distinct(fields) && i < |fields| && Punctuated(style)
    ensures ExtractString(ObjectText(StringMembers(fields) + more, style), fields[i].key)
         == Some(fields[ReadIndex(fields, i)].value)
  {
    var src := ObjectText(StringMembers(fields) + more, style);
    ObjectLayout(fields, more, style);
    FieldRead(src, 0, fields, style, CommaEach(more, style) + "}", i);
  }

  // The first two string fields always read back.
  lemma FirstTwoFields(fields: seq<Field>, more: seq<Member>, style: Style, i: nat)
    requires Distinct(fields) && i < |fields| && i < 2 && Punctuated(style)
    ensures ExtractString(ObjectText(StringMembers(fields) + more, style), fields[i].key) == Some(fields[i].value)
  {
    FieldOfObject(fields, more, style, i);
  }

  // ------------------------------------------------------ reading the data

  function Header(mtype: string, requestId: string): seq<Field> {
    [Field("type", mtype), Field("request_id", requestId)]
  }

  lemma HeaderDistinct(mtype: string, requestId: string)
    ensures Distinct(Header(mtype, requestId))
  {
    ProtocolKeys();
    assert "type"[0] == 't' && "request_id"[0] == 'r';
  }

  lemma {:induction false} HeaderLayout(k1: string, v1: string, k2: string, v2: string, style: Style)
    ensures Cells([Field(k1, v1), Field(k2, v2)], style)
         == [Cell(style.first, k1), Cell(style.colon, v1), Cell(style.comma, k2), Cell(style.colon, v2)]
  {
    var f := [Field(k1, v1), Field(k2, v2)];
    var next := style.(first := style.comma);
    assert f[1..] == [f[1]] && [f[1]][1..] == [];
    assert Cells([f[1]], next) == [Cell(style.comma, k2), Cell(style.colon, v2)] + [];
  }

  // Four cells, of which the keys miss, before other cells of which only the last
  // hits: where the first hit is.
  lemma FirstOfCells(cells: seq<Cell>, key: string, n: nat)
    requires |cells| >= 5
    requires !Hits(cells[0].value, key) && !Hits(cells[2].value, key)
    requires forall i :: 4 <= i < |cells| ==> (Hits(cells[i].value, key) <==> i == |cells| - 1)
    requires n == if Hits(cells[1].value, key) then 1 else if Hits(cells[3].value, key) then 3 else |cells| - 1
    ensures Hits(cells[n].value, key)
    ensures forall m :: 0 <= m < n ==> !Hits(cells[m].value, key)
  {
  }

  // A message is laid as its two header fields, perhaps one more key, then the
  // key searched for.
  ghost predicate MessageLaid(fields: seq<Field>, middle: seq<Cell>, key: string) {
    && |fields| == 2 && Distinct(fields) && SimpleKey(key)
    && fields[0].key != key && fields[1].key != key
    && middle != []
    && forall i :: 0 <= i < |middle| ==>
         Separator(middle[i].pre) && SimpleKey(middle[i].value) && (middle[i].value == key <==> i == |middle| - 1)
  }

  // The cell at which the search for the key stops: a header value that looks
  // like it, or the key itself.
  function StopCell(fields: seq<Field>, middle: seq<Cell>, key: string): nat
    requires |fields| == 2
  {
    if LooksLike(fields[0].value, key) then 1
    else if LooksLike(fields[1].value, key) then 3
    else |middle| + 3
  }

  lemma {:induction false} StopCellIsFirst(fields: seq<Field>, middle: seq<Cell>, style: Style, key: string)
    requires MessageLaid(fields, middle, key)
    ensures var cells, n := Cells(fields, style) + middle, StopCell(fields, middle, key);
      && n < |cells| && Hits(cells[n].value, key)
      && forall m :: 0 <= m < n ==> !Hits(cells[m].value, key)
  {
    var cells := Cells(fields, style) + middle;
    HeaderLayout(fields[0].key, fields[0].value, fields[1].key, fields[1].value, style);
    assert fields == [Field(fields[0].key, fields[0].value), Field(fields[1].key, fields[1].value)];
    KeyHits(fields[0].key, key);
    KeyHits(fields[1].key, key);
    HitsIffLooksLike(fields[0].value, key);
    HitsIffLooksLike(fields[1].value, key);
    forall i | 4 <= i < |cells| ensures Hits(cells[i].value, key) <==> i == |cells| - 1 {
      assert cells[i] == middle[i - 4];
      KeyHits(middle[i - 4].value, key);
    }
    FirstOfCells(cells, key, StopCell(fields, middle, key));
  }

  lemma MessageSearch(src: string, fields: seq<Field>, middle: seq<Cell>, style: Style, tail: string, key: string)
    returns (at: nat)
    requires MessageLaid(fields, middle, key) && Punctuated(style)
    requires MatchesAt(src, Render(Cells(fields, style) + middle, tail), 0)
    ensures StopCell(fields, middle, key) < |Cells(fields, style) + middle|
    ensures TokenEnd(src, key) == Some(at)
    ensures MatchesAt(src, Render((Cells(fields, style) + middle)[StopCell(fields, middle, key) + 1..], tail), at)
  {
    var cells, n := Cells(fields, style) + middle, StopCell(fields, middle, key);
    CellsWellLaid(fields, style);
    StopCellIsFirst(fields, middle, style, key);
    at := FirstHit(src, 0, cells, tail, key, n);
  }

  // The token ends at position at; a colon-free gap, the colon and an object follow.
  lemma ObjectAfter(src: string, key: string, at: nat, gap: string, style: Style, inner: string)
    requires TokenEnd(src, key) == Some(at) && ':' !in gap && style.Valid() && Neutral(inner)
    requires MatchesAt(src, gap, at) && MatchesAt(src, style.colon + ("{" + inner + "}"), at + |gap|)
    ensures ExtractObject(src, key) == Some("{" + inner + "}")
  {
    var c, spaces, obj := at + |gap|, style.colon[1..], "{" + inner + "}";
    assert style.colon == ":" + spaces;
    MatchSplit(src, style.colon, obj, c);
    MatchSplit(src, ":", spaces, c);
    ValueAfterColon(src, key, at, gap, spaces, obj);
    ObjectRead(src, key, c + 1 + |spaces|, inner);
  }

  // The same with something else than an object.
  lemma NoObjectAfter(src: string, key: string, at: nat, gap: string, style: Style, value: string)
    requires TokenEnd(src, key) == Some(at) && ':' !in gap && style.Valid()
    requires value != "" && !IsSpace(value[0]) && value[0] != '{'
    requires MatchesAt(src, gap, at) && MatchesAt(src, style.colon + value, at + |gap|)
    ensures ExtractObject(src, key) == None
  {
    var c, spaces := at + |gap|, style.colon[1..];
    assert style.colon == ":" + spaces;
    MatchSplit(src, style.colon, value, c);
    MatchSplit(src, ":", spaces, c);
    ValueAfterColon(src, key, at, gap, spaces, value);
    MatchIndex(src, value, c + 1 + |spaces|, 0);
  }

  // A first header value that looks like the key sends the search to the second
  // header value, a string.
  lemma {:induction false} StopsAtFirst(src: string, fields: seq<Field>, middle: seq<Cell>, style: Style,
                                            tail: string, key: string, at: nat)
    requires MessageLaid(fields, middle, key) && Punctuated(style)
    requires TokenEnd(src, key) == Some(at) && |Cells(fields, style) + middle| >= 2
    requires MatchesAt(src, Render((Cells(fields, style) + middle)[2..], tail), at)
    ensures ExtractObject(src, key) == None
  {
    var c2, c3 := Cell(style.comma, fields[1].key), Cell(style.colon, fields[1].value);
    HeaderLayout(fields[0].key, fields[0].value, fields[1].key, fields[1].value, style);
    assert fields == [Field(fields[0].key, fields[0].value), Field(fields[1].key, fields[1].value)];
    var rest := (Cells(fields, style) + middle)[2..];
    LaidHead(src, at, rest, tail);
    LaidHead(src, at + |Laid(c2)|, rest[1..], tail);
    KeyLiteral(fields[1].key);
    NoObjectAfter(src, key, at, Laid(c2), style, Literal(fields[1].value));
  }

  // buildResponse's layout: the key comes right after the header.
  lemma {:induction false} DataAfterHeader(src: string, fields: seq<Field>, style: Style, inner: string, key: string)
    requires MessageLaid(fields, [Cell(style.comma, key)], key) && Punctuated(style) && Neutral(inner)
    requires src == Render(Cells(fields, style) + [Cell(style.comma, key)], style.colon + ("{" + inner + "}") + "}")
    ensures ExtractObject(src, key) ==
              if LooksLike(fields[0].value, key) then None else Some("{" + inner + "}")
  {
    hide MatchesAt, Neutral, LooksLike, ExtractObject;
    var obj, middle := "{" + inner + "}", [Cell(style.comma, key)];
    var cells, tail := Cells(fields, style) + middle, style.colon + obj + "}";
    var at := MessageSearch(src, fields, middle, style, tail, key);
    CellCount(fields, style);
    if LooksLike(fields[0].value, key) {
      StopsAtFirst(src, fields, middle, style, tail, key, at);
    } else if LooksLike(fields[1].value, key) {
      assert cells[4..] == middle && middle[1..] == [];
      LaidHead(src, at, middle, tail);
      MatchSplit(src, style.colon + obj, "}", at + |Laid(middle[0])|);
      KeyLiteral(key);
      ObjectAfter(src, key, at, Laid(middle[0]), style, inner);
    } else {
      assert cells[5..] == [];
      MatchSplit(src, style.colon + obj, "}", at);
      ObjectAfter(src, key, at, "", style, inner);
    }
  }

  // A second header value that looks like the key sends it to the number.
  lemma {:induction false} StopsAtNumber(src: string, style: Style, k3: string, number: string,
                                             key: string, tail: string, at: nat)
    requires SimpleKey(k3) && Punctuated(style) && TokenEnd(src, key) == Some(at)
    requires number != "" && !IsSpace(number[0]) && number[0] != '{'
    requires MatchesAt(src, Render([Cell(style.comma, k3), Cell(style.colon + number + style.comma, key)], tail), at)
    ensures ExtractObject(src, key) == None
  {
    hide MatchesAt, SimpleKey, ExtractObject;
    var c4, c5 := Cell(style.comma, k3), Cell(style.colon + number + style.comma, key);
    assert [c4, c5][1..] == [c5];
    LaidHead(src, at, [c4, c5], tail);
    LaidHead(src, at + |Laid(c4)|, [c5], tail);
    var value := number + (style.comma + Literal(key));
    assert Laid(c5) == style.colon + value;
    KeyLiteral(k3);
    NoObjectAfter(src, key, at, Laid(c4), style, value);
  }

  // The client's layout: a numeric member stands between the header and the key.
  lemma {:induction false} DataAfterNumber(src: string, fields: seq<Field>, style: Style, k3: string, number: string,
                                               inner: string, key: string)
    requires MessageLaid(fields, [Cell(style.comma, k3), Cell(style.colon + number + style.comma, key)], key)
    requires Punctuated(style) && Neutral(inner)
    requires number != "" && !IsSpace(number[0]) && number[0] != '{'
    requires src == Render(Cells(fields, style) +
                           [Cell(style.comma, k3), Cell(style.colon + number + style.comma, key)],
                           style.colon + ("{" + inner + "}") + "}")
    ensures ExtractObject(src, key) ==
              if LooksLike(fields[0].value, key) || LooksLike(fields[1].value, key) then None
              else Some("{" + inner + "}")
  {
    hide MatchesAt, Neutral, LooksLike, ExtractObject;
    var obj, c4, c5 := "{" + inner + "}", Cell(style.comma, k3), Cell(style.colon + number + style.comma, key);
    var middle, tail := [c4, c5], style.colon + obj + "}";
    var cells := Cells(fields, style) + middle;
    var at := MessageSearch(src, fields, middle, style, tail, key);
    CellCount(fields, style);
    if LooksLike(fields[0].value, key) {
      StopsAtFirst(src, fields, middle, style, tail, key, at);
    } else if LooksLike(fields[1].value, key) {
      assert cells[4..] == middle;
      StopsAtNumber(src, style, k3, number, key, tail, at);
    } else {
      assert cells[6..] == [];
      MatchSplit(src, style.colon + obj, "}", at);
      ObjectAfter(src, key, at, "", style, inner);
    }
  }

  // ------------------------------------------------------- the message texts

  lemma Regroup(comma: string, lit: string, colon: string, text: string)
    ensures comma + (lit + colon + text) + "" + "}" == (comma + lit) + (colon + text + "}")
  {
  }

  lemma {:induction false} RenderOne(c: Cell, tail: string)
    ensures Render([c], tail) == Laid(c) + tail
  {
    assert [c][1..] == [];
  }

  lemma {:induction false} CommaEachOne(m: Member, style: Style)
    ensures CommaEach([m], style) == style.comma + MemberText(m, style) + ""
  {
    assert [m][1..] == [];
  }

  lemma {:induction false} OneMemberTail(fields: seq<Field>, style: Style, key: string, text: string)
    requires fields != [] && style.first == "{"
    ensures ObjectText(StringMembers(fields) + [Member(key, text)], style)
         == Render(Cells(fields, style) + [Cell(style.comma, key)], style.colon + text + "}")
  {
    ObjectLayout(fields, [Member(key, text)], style);
    CommaEachOne(Member(key, text), style);
    Regroup(style.comma, Literal(key), style.colon, text);
    RenderOne(Cell(style.comma, key), style.colon + text + "}");
    RenderConcat(Cells(fields, style), [Cell(style.comma, key)], style.colon + text + "}");
  }

  lemma RegroupTwo(comma: string, lit3: string, colon: string, number: string, lit: string, tail: string)
    ensures comma + (lit3 + colon + number) + ((comma + lit) + tail)
         == (comma + lit3) + ((colon + number + comma + lit) + tail)
  {
  }

  lemma {:induction false} CommaEachTwo(m3: Member, m: Member, style: Style)
    ensures CommaEach([m3, m], style) + "}"
         == style.comma + MemberText(m3, style) + ((style.comma + Literal(m.key)) + (style.colon + m.text + "}"))
  {
    assert [m3, m][1..] == [m];
    CommaEachOne(m, style);
    Regroup(style.comma, Literal(m.key), style.colon, m.text);
    ConcatAssoc(style.comma + MemberText(m3, style), CommaEach([m], style), "}");
  }

  lemma {:induction false} TwoMemberTail(fields: seq<Field>, style: Style, k3: string, number: string,
                                             key: string, text: string)
    requires fields != [] && style.first == "{"
    ensures ObjectText(StringMembers(fields) + [Member(k3, number), Member(key, text)], style)
         == Render(Cells(fields, style) + [Cell(style.comma, k3), Cell(style.colon + number + style.comma, key)],
                   style.colon + text + "}")
  {
    var c4, c5 := Cell(style.comma, k3), Cell(style.colon + number + style.comma, key);
    var tail := style.colon + text + "}";
    ObjectLayout(fields, [Member(k3, number), Member(key, text)], style);
    CommaEachTwo(Member(k3, number), Member(key, text), style);
    RegroupTwo(style.comma, Literal(k3), style.colon, number, Literal(key), tail);
    RenderOne(c5, tail);
    assert [c4, c5][1..] == [c5];
    RenderConcat(Cells(fields, style), [c4, c5], tail);
  }

  lemma {:induction false} DigitsPlain(n: nat)
    ensures Digits(n) != "" && forall i :: 0 <= i < |Digits(n)| ==> '0' <= Digits(n)[i] <= '9'
  {
    if n >= 10 { DigitsPlain(n / 10); }
  }

  lemma DecimalPlain(n: int)
    ensures Decimal(n) != "" && PlainText(Decimal(n)) && !IsSpace(Decimal(n)[0]) && Decimal(n)[0] != '{'
  {
    DigitsPlain(if n < 0 then -n else n);
    assert forall i :: 0 <= i < |Decimal(n)| ==> Decimal(n)[i] == '-' || '0' <= Decimal(n)[i] <= '9';
  }

  lemma WordUnlike(w: string, key: string)
    requires IsWord(w) && w != key
    ensures !LooksLike(w, key)
  {
    assert '"' !in w;
    NoQuoteInside(w, key);
  }

  // ------------------------------------------------- reading buildResponse

  lemma StylesPunctuated()
    ensures Punctuated(SERVER) && Punctuated(CLIENT)
  {
    assert IsPunctuation("{"[0]) && IsPunctuation(","[0]) && IsPunctuation(", "[0]);
  }

  lemma DataNeutral(strs: seq<Field>, ints: seq<IntField>, bools: seq<BoolField>)
    ensures Neutral(Join(StringMembers(strs) + (IntMembers(ints) + BoolMembers(bools)), SERVER))
  {
    var members := StringMembers(strs) + (IntMembers(ints) + BoolMembers(bools));
    StylesPunctuated();
    forall i | 0 <= i < |members| ensures Neutral(members[i].text) {
      if i < |strs| {
        NeutralLiteral(strs[i].value);
      } else if i < |strs| + |ints| {
        DecimalPlain(ints[i - |strs|].value);
        NeutralPlain(members[i].text);
      } else {
        NeutralPlain("true");
        NeutralPlain("false");
      }
    }
    NeutralJoin(members, SERVER);
  }

  lemma ResponseText(mtype: string, requestId: string, strs: seq<Field>, ints: seq<IntField>, bools: seq<BoolField>)
    ensures Response(mtype, requestId, strs, ints, bools)
         == ObjectText(StringMembers(Header(mtype, requestId)) + [Member("data", DataObject(strs, ints, bools))],
                       SERVER)
  {
    assert StringMembers(Header(mtype, requestId)) ==
      [Member("type", Literal(mtype)), Member("request_id", Literal(requestId))];
  }

  // A response's type and request id always read back.
  lemma ResponseHeader(mtype: string, requestId: string, strs: seq<Field>, ints: seq<IntField>, bools: seq<BoolField>)
    ensures ExtractString(Response(mtype, requestId, strs, ints, bools), "type") == Some(mtype)
    ensures ExtractString(Response(mtype, requestId, strs, ints, bools), "request_id") == Some(requestId)
  {
    var header, data := Header(mtype, requestId), [Member("data", DataObject(strs, ints, bools))];
    ResponseText(mtype, requestId, strs, ints, bools);
    HeaderDistinct(mtype, requestId);
    StylesPunctuated();
    FirstTwoFields(header, data, SERVER, 0);
    FirstTwoFields(header, data, SERVER, 1);
  }

  // A response's data object reads back whole, unless the type looks like "data".
  lemma ResponseData(mtype: string, requestId: string, strs: seq<Field>, ints: seq<IntField>, bools: seq<BoolField>)
    ensures ExtractObject(Response(mtype, requestId, strs, ints, bools), "data")
         == if LooksLike(mtype, "data") then None else Some(DataObject(strs, ints, bools))
  {
    var header := Header(mtype, requestId);
    var inner := Join(StringMembers(strs) + (IntMembers(ints) + BoolMembers(bools)), SERVER);
    ResponseText(mtype, requestId, strs, ints, bools);
    OneMemberTail(header, SERVER, "data", "{" + inner + "}");
    HeaderDistinct(mtype, requestId);
    StylesPunctuated();
    DataNeutral(strs, ints, bools);
    DataKey(header, SERVER);
    DataAfterHeader(Response(mtype, requestId, strs, ints, bools), header, SERVER, inner, "data");
  }

  lemma DataKey(header: seq<Field>, style: Style)
    requires |header| == 2 && header[0].key == "type" && header[1].key == "request_id" && Distinct(header)
    requires Punctuated(style)
    ensures MessageLaid(header, [Cell(style.comma, "data")], "data")
  {
    assert SimpleKey("data") by { ProtocolKeys(); }
    KeysDiffer();
  }

  lemma KeysDiffer()
    ensures "type" != "data" && "request_id" != "data" && "timestamp" != "data"
  {
    assert "data"[0] == 'd' && "type"[0] == 't' && "request_id"[0] == 'r' && "timestamp"[0] == 't';
  }

  // Any string field of any response: what a search for its key reads.
  lemma ResponseField(strs: seq<Field>, ints: seq<IntField>, bools: seq<BoolField>, i: nat)
    requires Distinct(strs) && i < |strs|
    ensures ExtractString(DataObject(strs, ints, bools), strs[i].key) == Some(strs[ReadIndex(strs, i)].value)
  {
    StylesPunctuated();
    FieldOfObject(strs, IntMembers(ints) + BoolMembers(bools), SERVER, i);
  }

  // Lossless relay: the chat broadcast payload gives back exactly the username
  // and the text, whatever they contain.
  lemma RelayLossless(username: string, text: string, userId: int)
    ensures var payload := Response("chat_broadcast", "", [Field("username", username), Field("text", text)],
                                    [IntField("user_id", userId)], []);
      exists data :: ExtractObject(payload, "data") == Some(data) &&
        ExtractString(data, "username") == Some(username) && ExtractString(data, "text") == Some(text)
  {
    var strs, ints := [Field("username", username), Field("text", text)], [IntField("user_id", userId)];
    BroadcastTypeUnlike();
    ResponseData("chat_broadcast", "", strs, ints, []);
    ChatFields(username, text);
    TwoStrings("username", username, "text", text, ints);
  }

  // Both fields of a two-string data object read back.
  lemma TwoStrings(k1: string, v1: string, k2: string, v2: string, ints: seq<IntField>)
    requires Distinct([Field(k1, v1), Field(k2, v2)])
    ensures var data := DataObject([Field(k1, v1), Field(k2, v2)], ints, []);
      ExtractString(data, k1) == Some(v1) && ExtractString(data, k2) == Some(v2)
  {
    var strs := [Field(k1, v1), Field(k2, v2)];
    StylesPunctuated();
    FirstTwoFields(strs, IntMembers(ints) + BoolMembers([]), SERVER, 0);
    FirstTwoFields(strs, IntMembers(ints) + BoolMembers([]), SERVER, 1);
  }

  lemma BroadcastTypeUnlike()
    ensures !LooksLike("chat_broadcast", "data")
  {
    assert "chat_broadcast"[0] == 'c' && "data"[0] == 'd';
    WordUnlike("chat_broadcast", "data");
  }

  lemma ChatFields(username: string, text: string)
    ensures Distinct([Field("username", username), Field("text", text)])
  {
    assert SimpleKey("username") && SimpleKey("text") by { ProtocolKeys(); }
    assert "username"[0] == 'u' && "text"[0] == 't';
  }

  // With three string fields the search can go wrong: the value of a, which is
  // the key c, sends the search for c to the value of b.
  lemma ThirdFieldCanBeMisread()
    ensures ExtractString(DataObject([Field("a", "c"), Field("b", "x"), Field("c", "y")], [], []), "c") == Some("x")
  {
    var strs := [Field("a", "c"), Field("b", "x"), Field("c", "y")];
    WordIsKey("a");
    WordIsKey("b");
    WordIsKey("c");
    ResponseField(strs, [], [], 2);
    assert LooksLike(strs[0].value, strs[2].key);
    assert FirstLookalike(strs, 2, 0) == Some(0);
  }

  // ------------------------------------------ parsing what the client prints

  // What the server finds in a client's envelope: the type and the request id
  // always; the data object exactly when neither looks like "data".
  lemma EnvelopeRead(mtype: string, requestId: string, timestamp: int, fields: seq<Field>)
    ensures var json := Envelope(mtype, requestId, timestamp, fields);
      && ExtractString(json, "type") == Some(mtype)
      && ExtractString(json, "request_id") == Some(requestId)
      && ExtractObject(json, "data") ==
           if LooksLike(mtype, "data") || LooksLike(requestId, "data") then None
           else Some(ObjectText(StringMembers(fields), CLIENT))
  {
    var header, inner, number := Header(mtype, requestId), Join(StringMembers(fields), CLIENT), Decimal(timestamp);
    var json := Envelope(mtype, requestId, timestamp, fields);
    EnvelopeText(mtype, requestId, timestamp, fields);
    HeaderDistinct(mtype, requestId);
    StylesPunctuated();
    var more := [Member("timestamp", number), Member("data", "{" + inner + "}")];
    FirstTwoFields(header, more, CLIENT, 0);
    FirstTwoFields(header, more, CLIENT, 1);
    FieldsNeutral(fields);
    DecimalPlain(timestamp);
    TwoMemberTail(header, CLIENT, "timestamp", number, "data", "{" + inner + "}");
    TimestampKey(header, CLIENT, number);
    DataAfterNumber(json, header, CLIENT, "timestamp", number, inner, "data");
  }

  lemma EnvelopeText(mtype: string, requestId: string, timestamp: int, fields: seq<Field>)
    ensures Envelope(mtype, requestId, timestamp, fields)
         == ObjectText(StringMembers(Header(mtype, requestId)) +
                       [Member("timestamp", Decimal(timestamp)),
                        Member("data", ObjectText(StringMembers(fields), CLIENT))], CLIENT)
  {
    var head := [Member("type", Literal(mtype)), Member("request_id", Literal(requestId))];
    var more := [Member("timestamp", Decimal(timestamp)), Member("data", ObjectText(StringMembers(fields), CLIENT))];
    assert StringMembers(Header(mtype, requestId)) == head;
    assert head + more == [head[0], head[1], more[0], more[1]];
  }

  lemma FieldsNeutral(fields: seq<Field>)
    ensures Neutral(Join(StringMembers(fields), CLIENT))
  {
    StylesPunctuated();
    forall i | 0 <= i < |fields| ensures Neutral(StringMembers(fields)[i].text) {
      NeutralLiteral(fields[i].value);
    }
    NeutralJoin(StringMembers(fields), CLIENT);
  }

  lemma TimestampKey(header: seq<Field>, style: Style, number: string)
    requires |header| == 2 && header[0].key == "type" && header[1].key == "request_id" && Distinct(header)
    requires Punctuated(style) && PlainText(number)
    ensures MessageLaid(header, [Cell(style.comma, "timestamp"), Cell(style.colon + number + style.comma, "data")],
                        "data")
  {
    assert SimpleKey("data") && SimpleKey("timestamp") by { ProtocolKeys(); }
    KeysDiffer();
    var pre := style.colon + number + style.comma;
    assert Separator(style.colon) by { assert IsPunctuation(style.colon[0]); }
    assert Separator(pre) by { assert pre[0] == style.colon[0]; }
  }

  // The parser inverts the client's printer on every login request whose request
  // id does not look like "data"; on the others it reports the data as missing.
  lemma LoginParsed(requestId: string, timestamp: int, username: string, password: string)
    ensures Parse(LoginRequest(requestId, timestamp, username, password)) ==
      if LooksLike(requestId, "data")
      then Bad(ClientMessage("login_req", requestId, map[]), "missing or invalid field: data")
      else Ok(ClientMessage("login_req", requestId, map["username" := username, "password" := password]))
  {
    LoginTypes();
    EnvelopeRead("login_req", requestId, timestamp, [Field("username", username), Field("password", password)]);
    LoginData(username, password);
    ParseOfLogin(LoginRequest(requestId, timestamp, username, password), requestId, username, password);
  }

  lemma LoginData(username: string, password: string)
    ensures var data := ObjectText(StringMembers([Field("username", username), Field("password", password)]), CLIENT);
      ExtractString(data, "username") == Some(username) && ExtractString(data, "password") == Some(password)
  {
    var fields := [Field("username", username), Field("password", password)];
    LoginFields(username, password);
    StylesPunctuated();
    assert StringMembers(fields) + [] == StringMembers(fields);
    FirstTwoFields(fields, [], CLIENT, 0);
    FirstTwoFields(fields, [], CLIENT, 1);
  }

  lemma ParseOfLogin(json: string, id: string, username: string, password: string)
    requires ExtractString(json, "type") == Some("login_req") && ExtractString(json, "request_id") == Some(id)
    requires ExtractObject(json, "data").Some? ==>
               && ExtractString(ExtractObject(json, "data").value, "username") == Some(username)
               && ExtractString(ExtractObject(json, "data").value, "password") == Some(password)
    ensures Parse(json) ==
      if ExtractObject(json, "data").None?
      then Bad(ClientMessage("login_req", id, map[]), "missing or invalid field: data")
      else Ok(ClientMessage("login_req", id, map["username" := username, "password" := password]))
  {
  }

  lemma LoginTypes()
    ensures !LooksLike("login_req", "data") && !LooksLike("chat_req", "data") && "chat_req" != "login_req"
  {
    assert "login_req"[0] == 'l' && "chat_req"[0] == 'c' && "data"[0] == 'd';
    WordUnlike("login_req", "data");
    WordUnlike("chat_req", "data");
  }

  lemma LoginFields(username: string, password: string)
    ensures Distinct([Field("username", username), Field("password", password)])
  {
    assert SimpleKey("username") && SimpleKey("password") by { ProtocolKeys(); }
    assert "username"[0] == 'u' && "password"[0] == 'p';
  }

  lemma ChatParsed(requestId: string, timestamp: int, text: string)
    ensures Parse(ChatRequest(requestId, timestamp, text)) ==
      if LooksLike(requestId, "data")
      then Bad(ClientMessage("chat_req", requestId, map[]), "missing or invalid field: data")
      else Ok(ClientMessage("chat_req", requestId, map["text" := text]))
  {
    LoginTypes();
    EnvelopeRead("chat_req", requestId, timestamp, [Field("text", text)]);
    ChatData(text);
    ParseOfChat(ChatRequest(requestId, timestamp, text), requestId, text);
  }

  lemma ChatData(text: string)
    ensures ExtractString(ObjectText(StringMembers([Field("text", text)]), CLIENT), "text") == Some(text)
  {
    var fields := [Field("text", text)];
    assert Distinct(fields) by { ProtocolKeys(); }
    StylesPunctuated();
    assert StringMembers(fields) + [] == StringMembers(fields);
    FirstTwoFields(fields, [], CLIENT, 0);
  }

  lemma ParseOfChat(json: string, id: string, text: string)
    requires ExtractString(json, "type") == Some("chat_req") && ExtractString(json, "request_id") == Some(id)
    requires ExtractObject(json, "data").Some? ==>
               ExtractString(ExtractObject(json, "data").value, "text") == Some(text)
    ensures Parse(json) ==
      if ExtractObject(json, "data").None?
      then Bad(ClientMessage("chat_req", id, map[]), "missing or invalid field: data")
      else Ok(ClientMessage("chat_req", id, map["text" := text]))
  {
    LoginTypes();
  }

  // The client numbers its requests, and no number looks like "data".
  lemma {:induction false} NumberedRequests(id: nat, timestamp: int, username: string, password: string, text: string)
    ensures Parse(LoginRequest(Digits(id), timestamp, username, password))
         == Ok(ClientMessage("login_req", Digits(id), map["username" := username, "password" := password]))
    ensures Parse(ChatRequest(Digits(id), timestamp, text))
         == Ok(ClientMessage("chat_req", Digits(id), map["text" := text]))
  {
    LoginParsed(Digits(id), timestamp, username, password);
    ChatParsed(Digits(id), timestamp, text);
    DigitsPlain(id);
    assert "data"[0] == 'd';
    assert '"' !in Digits(id);
    NoQuoteInside(Digits(id), "data");
  }
}
