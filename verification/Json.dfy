// What a message means to a reader of JSON: a reader written from RFC 8259 alone,
// for strings, integers, booleans and objects, and what it makes of the texts the
// server and the client print.
module Json {
  import opened Sequences
  import opened Escaping
  import opened Layout
  import opened Fields
  import opened Messages

  datatype Value = Str(text: string) | Num(number: int) | Bool(truth: bool) | Obj(members: seq<(string, Value)>)

  // White space, section 2.
  predicate IsWhite(c: char) { c as int == 0x20 || c as int == 0x09 || c as int == 0x0A || c as int == 0x0D }

  function SkipWhite(s: string): (r: string)
    ensures |r| <= |s|
  {
    if s != "" && IsWhite(s[0]) then SkipWhite(s[1..]) else s
  }

  // What the character after a backslash stands for, section 7; \u is left out.
  function Meaning(c: char): Option<char> {
    match c as int
    case 0x22 => Some('"')
    case 0x5C => Some('\\')
    case 0x2F => Some('/')
    case 0x62 => Some(0x08 as char)
    case 0x66 => Some(0x0C as char)
    case 0x6E => Some(0x0A as char)
    case 0x72 => Some(0x0D as char)
    case 0x74 => Some(0x09 as char)
    case _ => None
  }

  // A string after its opening quote, section 7: its characters, and what follows
  // the closing quote. A control character must not stand there unescaped.
  function ReadChars(s: string): (r: Option<(string, string)>)
    ensures r.Some? ==> |r.value.1| < |s|
    decreases |s|
  {
    if s == "" then None
    else if s[0] as int == 0x22 then Some(("", s[1..]))
    else if s[0] as int < 0x20 then None
    else if s[0] as int == 0x5C then
      if |s| < 2 || Meaning(s[1]).None? then None else Prepend(Meaning(s[1]).value, ReadChars(s[2..]))
    else Prepend(s[0], ReadChars(s[1..]))
  }

  function Prepend(c: char, r: Option<(string, string)>): Option<(string, string)> {
    if r.None? then None else Some(([c] + r.value.0, r.value.1))
  }

  predicate IsDigit(c: char) { 0x30 <= c as int <= 0x39 }

  // The digits that follow, after some that make n.
  function ReadDigits(n: nat, s: string): (r: (nat, string))
    ensures |r.1| <= |s|
    decreases |s|
  {
    if s != "" && IsDigit(s[0]) then ReadDigits(10 * n + (s[0] as int - 0x30), s[1..]) else (n, s)
  }

  // A natural number, section 6: no zero leads.
  function ReadNat(s: string): (r: Option<(nat, string)>)
    ensures r.Some? ==> |r.value.1| < |s|
  {
    if s == "" || !IsDigit(s[0]) then None
    else if s[0] as int == 0x30 then Some((0, s[1..]))
    else Some(ReadDigits(s[0] as int - 0x30, s[1..]))
  }

  // A value, and what follows it.
  function ReadValue(s: string): (r: Option<(Value, string)>)
    ensures r.Some? ==> |r.value.1| < |s|
    decreases |s|, 1
  {
    if s == "" then None
    else if s[0] as int == 0x22 then
      var r := ReadChars(s[1..]);
      if r.None? then None else Some((Str(r.value.0), r.value.1))
    else if s[0] == '{' then
      var t := SkipWhite(s[1..]);
      if t != "" && t[0] == '}' then Some((Obj([]), t[1..]))
      else
        var r := ReadMembers(t);
        if r.None? then None else Some((Obj(r.value.0), r.value.1))
    else if s[0] == '-' then
      var r := ReadNat(s[1..]);
      if r.None? then None else Some((Num(0 - r.value.0), r.value.1))
    else if "true" <= s then Some((Bool(true), s[4..]))
    else if "false" <= s then Some((Bool(false), s[5..]))
    else
      var r := ReadNat(s);
      if r.None? then None else Some((Num(r.value.0), r.value.1))
  }

  // The members of an object from its first key on, section 4, and what follows
  // the closing brace.
  function ReadMembers(s: string): (r: Option<(seq<(string, Value)>, string)>)
    ensures r.Some? ==> |r.value.1| < |s|
    decreases |s|, 0
  {
    if s == "" || s[0] as int != 0x22 then None
    else
      var k := ReadChars(s[1..]);
      if k.None? then None
      else
        var t := SkipWhite(k.value.1);
        if t == "" || t[0] != ':' then None
        else
          var v := ReadValue(SkipWhite(t[1..]));
          if v.None? then None
          else
            var m, u := (k.value.0, v.value.0), SkipWhite(v.value.1);
            if u == "" then None
            else if u[0] == '}' then Some(([m], u[1..]))
            else if u[0] != ',' then None
            else
              var more := ReadMembers(SkipWhite(u[1..]));
              if more.None? then None else Some(([m] + more.value.0, more.value.1))
  }

  // A whole text.
  function Read(s: string): Option<Value> {
    var r := ReadValue(SkipWhite(s));
    if r.Some? && SkipWhite(r.value.1) == "" then Some(r.value.0) else None
  }

  // ---------------------------------------------------------- what is printed

  predicate IsClean(c: char) { c as int >= 0x20 || c as int == 0x09 || c as int == 0x0A || c as int == 0x0D }

  // No control character but the three that escapeJson escapes.
  predicate Clean(s: string) { forall c :: c in s ==> IsClean(c) }

  lemma CharRead(c: char, more: string)
    ensures ReadChars(EscapeChar(c) + more) == if IsClean(c) then Prepend(c, ReadChars(more)) else None
  {
    var e := EscapeChar(c);
    var s := e + more;
    assert s[0] == e[0] && s[|e|..] == more;
    if |e| == 2 { assert s[1] == e[1]; }
  }

  lemma CleanHead(s: string)
    requires s != ""
    ensures Clean(s) <==> IsClean(s[0]) && Clean(s[1..])
  {
    assert s == [s[0]] + s[1..];
  }

  // A string escapeJson printed reads back, unless it has another control character;
  // then no reader of JSON takes it.
  lemma {:induction false} CharsRead(s: string, rest: string)
    ensures ReadChars(Escape(s) + ("\"" + rest)) == if Clean(s) then Some((s, rest)) else None
    decreases |s|
  {
    if s == "" {
      assert Escape(s) + ("\"" + rest) == "\"" + rest;
      assert ("\"" + rest)[1..] == rest;
    } else {
      CharsRead(s[1..], rest);
      var e, more := EscapeChar(s[0]), Escape(s[1..]) + ("\"" + rest);
      assert Escape(s) + ("\"" + rest) == e + more;
      CharRead(s[0], more);
      CleanHead(s);
      assert s == [s[0]] + s[1..];
    }
  }

  lemma LiteralRead(v: string, rest: string)
    ensures ReadValue(Literal(v) + rest) == if Clean(v) then Some((Str(v), rest)) else None
    ensures ReadChars((Literal(v) + rest)[1..]) == if Clean(v) then Some((v, rest)) else None
  {
    CharsRead(v, rest);
    assert Literal(v) + rest == "\"" + (Escape(v) + ("\"" + rest));
    assert (Literal(v) + rest)[1..] == Escape(v) + ("\"" + rest);
  }

  // ----------------------------------------------------------------- numbers

  lemma {:induction false} DigitsRead(n: nat, rest: string)
    ensures ReadDigits(0, Digits(n) + rest) == ReadDigits(n, rest)
    decreases n
  {
    var d := [Digit(n % 10)];
    if n < 10 {
      assert (d + rest)[1..] == rest;
    } else {
      assert Digits(n) + rest == Digits(n / 10) + (d + rest);
      DigitsRead(n / 10, d + rest);
      assert (d + rest)[1..] == rest;
    }
  }

  lemma {:induction false} DigitsLead(n: nat)
    ensures Digits(n) != "" && IsDigit(Digits(n)[0]) && (Digits(n)[0] as int == 0x30 <==> n == 0)
    ensures n == 0 ==> Digits(n) == "0"
    decreases n
  {
    if n >= 10 { DigitsLead(n / 10); }
  }

  lemma NatRead(n: nat, rest: string)
    requires rest == "" || !IsDigit(rest[0])
    ensures ReadNat(Digits(n) + rest) == Some((n, rest))
  {
    DigitsLead(n);
    DigitsRead(n, rest);
    var s := Digits(n) + rest;
    assert s[0] == Digits(n)[0];
    if n == 0 { assert s[1..] == rest; }
  }

  lemma NumberStart(s: string)
    requires s != "" && (IsDigit(s[0]) || s[0] == '-')
    ensures ReadValue(s) ==
      var r := ReadNat(if s[0] == '-' then s[1..] else s);
      if r.None? then None else Some((Num(if s[0] == '-' then 0 - r.value.0 else r.value.0), r.value.1))
  {
    hide ReadNat, ReadMembers, ReadChars, SkipWhite;
    assert "true"[0] == 't' && "false"[0] == 'f';
  }

  lemma NumberRead(n: int, rest: string)
    requires rest == "" || !IsDigit(rest[0])
    ensures ReadValue(Decimal(n) + rest) == Some((Num(n), rest))
  {
    var s := Decimal(n) + rest;
    hide ReadValue, ReadNat, Digits;
    if n < 0 {
      NatRead(-n, rest);
      assert s == "-" + (Digits(-n) + rest) && s[1..] == Digits(-n) + rest;
    } else {
      NatRead(n, rest);
      DigitsLead(n);
      assert s[0] == Digits(n)[0];
    }
    NumberStart(s);
  }

  lemma TruthRead(b: bool, rest: string)
    ensures ReadValue((if b then "true" else "false") + rest) == Some((Bool(b), rest))
  {
    if b {
      assert ("true" + rest)[4..] == rest && ("true" + rest)[0] == 't';
    } else {
      assert ("false" + rest)[5..] == rest && ("false" + rest)[0] == 'f';
    }
  }

  // ----------------------------------------------------------------- objects

  // A member as printed: its key, and what its value's text reads as, if it does.
  datatype Printed = Printed(key: string, value: Option<Value>)

  function Collect(items: seq<Printed>): Option<seq<(string, Value)>> {
    if items == [] then Some([])
    else
      var more := Collect(items[1..]);
      if !Clean(items[0].key) || items[0].value.None? || more.None? then None
      else Some([(items[0].key, items[0].value.value)] + more.value)
  }

  // What can follow a value in an object.
  predicate After(rest: string) { rest != "" && (rest[0] == ',' || rest[0] == '}') }

  // The text reads as the value, or as nothing, wherever it stands in an object.
  ghost predicate Prints(text: string, v: Option<Value>) {
    && text != "" && !IsWhite(text[0])
    && forall rest: string :: After(rest) ==>
         ReadValue(text + rest) == if v.None? then None else Some((v.value, rest))
  }

  ghost predicate AllPrint(members: seq<Member>, items: seq<Printed>) {
    && |members| == |items|
    && forall i :: 0 <= i < |members| ==> members[i].key == items[i].key && Prints(members[i].text, items[i].value)
  }

  predicate WhiteFrom(s: string, c: char) { s != "" && s[0] == c && forall i :: 1 <= i < |s| ==> IsWhite(s[i]) }

  predicate JsonStyle(style: Style) { WhiteFrom(style.colon, ':') && WhiteFrom(style.comma, ',') }

  lemma {:induction false} SkipAll(w: string, t: string)
    requires (forall i :: 0 <= i < |w| ==> IsWhite(w[i])) && (t == "" || !IsWhite(t[0]))
    ensures SkipWhite(w + t) == t
    decreases |w|
  {
    if w == "" {
      assert w + t == t;
    } else {
      SkipAll(w[1..], t);
      assert (w + t)[1..] == w[1..] + t;
    }
  }

  lemma SkipPast(sep: string, c: char, t: string)
    requires WhiteFrom(sep, c) && !IsWhite(c) && (t == "" || !IsWhite(t[0]))
    ensures SkipWhite(sep + t) == sep + t && (sep + t)[0] == c && SkipWhite((sep + t)[1..]) == t
  {
    assert (sep + t)[1..] == sep[1..] + t;
    SkipAll(sep[1..], t);
  }

  // One member, with what follows it.
  lemma MemberRead(m: Member, item: Printed, style: Style, rest: string)
    requires JsonStyle(style) && m.key == item.key && Prints(m.text, item.value) && After(rest)
    ensures var s := MemberText(m, style) + rest;
      s[0] == '"' && ReadMembers(s) ==
        if !Clean(item.key) || item.value.None? then None
        else if rest[0] == '}' then Some(([(item.key, item.value.value)], rest[1..]))
        else
          var more := ReadMembers(SkipWhite(rest[1..]));
          if more.None? then None else Some(([(item.key, item.value.value)] + more.value.0, more.value.1))
  {
    var value := m.text + rest;
    var after := style.colon + value;
    assert MemberText(m, style) + rest == Literal(m.key) + after;
    LiteralRead(m.key, after);
    assert value[0] == m.text[0];
    SkipPast(style.colon, ':', value);
    assert SkipWhite(rest) == rest;
    assert (Literal(m.key) + after)[0] == '"';
    hide ReadValue, ReadChars, Literal, Clean, WhiteFrom;
  }

  lemma JoinHead(members: seq<Member>, style: Style, rest: string)
    requires members != []
    ensures Join(members, style) + ("}" + rest)
         == MemberText(members[0], style) + (CommaEach(members[1..], style) + ("}" + rest))
    ensures |members| == 1 ==> CommaEach(members[1..], style) + ("}" + rest) == "}" + rest
    ensures |members| > 1 ==>
      CommaEach(members[1..], style) + ("}" + rest) == style.comma + (Join(members[1..], style) + ("}" + rest))
  {
    hide MemberText;
    if |members| > 1 {
      var m, c := MemberText(members[1], style), CommaEach(members[1..][1..], style);
      assert CommaEach(members[1..], style) == style.comma + m + c;
      assert Join(members[1..], style) == m + c;
    }
  }

  // Members, from the first key to the closing brace.
  lemma {:induction false} MembersRead(members: seq<Member>, items: seq<Printed>, style: Style, rest: string)
    requires members != [] && AllPrint(members, items) && JsonStyle(style)
    ensures var s := Join(members, style) + ("}" + rest);
      s[0] == '"' && ReadMembers(s) == if Collect(items).None? then None else Some((Collect(items).value, rest))
    decreases |members|
  {
    JoinHead(members, style, rest);
    var tail := CommaEach(members[1..], style) + ("}" + rest);
    if |members| == 1 {
      assert tail == "}" + rest && tail[1..] == rest;
      assert items[1..] == [] && Collect([]) == Some([]);
      if Clean(items[0].key) && items[0].value.Some? {
        assert Collect(items).value == [(items[0].key, items[0].value.value)];
      }
    } else {
      var more := Join(members[1..], style) + ("}" + rest);
      MembersRead(members[1..], items[1..], style, rest);
      SkipPast(style.comma, ',', more);
      assert tail == style.comma + more && SkipWhite(tail[1..]) == more;
    }
    MemberRead(members[0], items[0], style, tail);
    hide ReadMembers, Prints, MemberText, CommaEach, Join, SkipWhite, Clean;
  }

  function ObjectOf(items: seq<Printed>): Option<Value> {
    if Collect(items).None? then None else Some(Obj(Collect(items).value))
  }

  lemma ObjectPrints(members: seq<Member>, items: seq<Printed>, style: Style)
    requires AllPrint(members, items) && JsonStyle(style)
    ensures Prints(ObjectText(members, style), ObjectOf(items))
    ensures ReadValue(ObjectText(members, style)) ==
            if ObjectOf(items).None? then None else Some((ObjectOf(items).value, ""))
  {
    forall rest: string
      ensures ReadValue(ObjectText(members, style) + rest) ==
              if ObjectOf(items).None? then None else Some((ObjectOf(items).value, rest))
    {
      ObjectRead(members, items, style, rest);
    }
    assert ObjectText(members, style) + "" == ObjectText(members, style);
  }

  lemma ObjectRead(members: seq<Member>, items: seq<Printed>, style: Style, rest: string)
    requires AllPrint(members, items) && JsonStyle(style)
    ensures ReadValue(ObjectText(members, style) + rest) ==
            if ObjectOf(items).None? then None else Some((ObjectOf(items).value, rest))
  {
    var inner := Join(members, style) + ("}" + rest);
    assert ObjectText(members, style) + rest == "{" + inner;
    assert ("{" + inner)[1..] == inner;
    if members == [] {
      assert inner == "}" + rest && inner[1..] == rest;
    } else {
      MembersRead(members, items, style, rest);
      assert SkipWhite(inner) == inner;
    }
    hide ReadMembers, Prints, Join;
  }

  // ---------------------------------------------------- what the server prints

  lemma StylesJson()
    ensures JsonStyle(SERVER) && JsonStyle(CLIENT)
  {
  }

  lemma StringPrints(v: string)
    ensures Prints(Literal(v), if Clean(v) then Some(Str(v)) else None)
  {
    forall rest: string
      ensures ReadValue(Literal(v) + rest) == if Clean(v) then Some((Str(v), rest)) else None
    {
      LiteralRead(v, rest);
    }
  }

  lemma NumberPrints(n: int)
    ensures Prints(Decimal(n), Some(Num(n)))
  {
    forall rest: string | After(rest) ensures ReadValue(Decimal(n) + rest) == Some((Num(n), rest)) {
      NumberRead(n, rest);
    }
    DigitsLead(if n < 0 then -n else n);
  }

  lemma TruthPrints(b: bool)
    ensures Prints(if b then "true" else "false", Some(Bool(b)))
  {
    forall rest: string ensures ReadValue((if b then "true" else "false") + rest) == Some((Bool(b), rest)) {
      TruthRead(b, rest);
    }
    assert "true"[0] == 't' && "false"[0] == 'f';
  }

  function StringItem(f: Field): Printed { Printed(f.key, if Clean(f.value) then Some(Str(f.value)) else None) }

  function StringItems(strs: seq<Field>): seq<Printed> {
    seq(|strs|, i requires 0 <= i < |strs| => StringItem(strs[i]))
  }

  function IntItems(ints: seq<IntField>): seq<Printed> {
    seq(|ints|, i requires 0 <= i < |ints| => Printed(ints[i].key, Some(Num(ints[i].value))))
  }

  function BoolItems(bools: seq<BoolField>): seq<Printed> {
    seq(|bools|, i requires 0 <= i < |bools| => Printed(bools[i].key, Some(Bool(bools[i].value))))
  }

  function Items(strs: seq<Field>, ints: seq<IntField>, bools: seq<BoolField>): seq<Printed> {
    StringItems(strs) + (IntItems(ints) + BoolItems(bools))
  }

  // The members a caller of buildResponse asks for, in order.
  function Wanted(strs: seq<Field>, ints: seq<IntField>, bools: seq<BoolField>): seq<(string, Value)> {
    seq(|strs|, i requires 0 <= i < |strs| => (strs[i].key, Str(strs[i].value))) +
    (seq(|ints|, i requires 0 <= i < |ints| => (ints[i].key, Num(ints[i].value))) +
     seq(|bools|, i requires 0 <= i < |bools| => (bools[i].key, Bool(bools[i].value))))
  }

  predicate AllClean(strs: seq<Field>, ints: seq<IntField>, bools: seq<BoolField>) {
    && (forall i :: 0 <= i < |strs| ==> Clean(strs[i].key) && Clean(strs[i].value))
    && (forall i :: 0 <= i < |ints| ==> Clean(ints[i].key))
    && (forall i :: 0 <= i < |bools| ==> Clean(bools[i].key))
  }

  lemma {:induction false} CollectAll(items: seq<Printed>, ms: seq<(string, Value)>)
    requires |ms| == |items|
    requires forall i :: 0 <= i < |items| && items[i].value.Some? ==> ms[i] == (items[i].key, items[i].value.value)
    ensures Collect(items) ==
      if forall i :: 0 <= i < |items| ==> Clean(items[i].key) && items[i].value.Some? then Some(ms) else None
    decreases |items|
  {
    if items != [] {
      CollectAll(items[1..], ms[1..]);
      assert ms == [ms[0]] + ms[1..];
      assert items == [items[0]] + items[1..];
      assert forall i :: 0 <= i < |items| - 1 ==> items[1..][i] == items[i + 1];
    }
  }

  lemma {:induction false} CollectConcat(a: seq<Printed>, b: seq<Printed>)
    ensures Collect(a + b) ==
      if Collect(a).None? || Collect(b).None? then None else Some(Collect(a).value + Collect(b).value)
    decreases |a|
  {
    if a == [] {
      assert a + b == b;
      assert Collect(b).Some? ==> [] + Collect(b).value == Collect(b).value;
    } else {
      CollectConcat(a[1..], b);
      assert (a + b)[1..] == a[1..] + b;
      if Collect(a).Some? && Collect(b).Some? {
        ConcatAssoc([(a[0].key, a[0].value.value)], Collect(a[1..]).value, Collect(b).value);
      }
    }
  }

  lemma CollectStrings(strs: seq<Field>)
    ensures Collect(StringItems(strs)) ==
      if forall i :: 0 <= i < |strs| ==> Clean(strs[i].key) && Clean(strs[i].value)
      then Some(seq(|strs|, i requires 0 <= i < |strs| => (strs[i].key, Str(strs[i].value)))) else None
  {
    var items := StringItems(strs);
    CollectAll(items, seq(|strs|, i requires 0 <= i < |strs| => (strs[i].key, Str(strs[i].value))));
    hide Clean, Collect;
    assert forall i :: 0 <= i < |strs| ==> items[i] == StringItem(strs[i]);
  }

  lemma CollectInts(ints: seq<IntField>)
    ensures Collect(IntItems(ints)) ==
      if forall i :: 0 <= i < |ints| ==> Clean(ints[i].key)
      then Some(seq(|ints|, i requires 0 <= i < |ints| => (ints[i].key, Num(ints[i].value)))) else None
  {
    var items := IntItems(ints);
    CollectAll(items, seq(|ints|, i requires 0 <= i < |ints| => (ints[i].key, Num(ints[i].value))));
    hide Clean, Collect;
    assert forall i :: 0 <= i < |ints| ==> items[i].key == ints[i].key;
  }

  lemma CollectBools(bools: seq<BoolField>)
    ensures Collect(BoolItems(bools)) ==
      if forall i :: 0 <= i < |bools| ==> Clean(bools[i].key)
      then Some(seq(|bools|, i requires 0 <= i < |bools| => (bools[i].key, Bool(bools[i].value)))) else None
  {
    var items := BoolItems(bools);
    CollectAll(items, seq(|bools|, i requires 0 <= i < |bools| => (bools[i].key, Bool(bools[i].value))));
    hide Clean, Collect;
    assert forall i :: 0 <= i < |bools| ==> items[i].key == bools[i].key;
  }

  lemma CollectFields(strs: seq<Field>, ints: seq<IntField>, bools: seq<BoolField>)
    ensures Collect(Items(strs, ints, bools)) ==
      if AllClean(strs, ints, bools) then Some(Wanted(strs, ints, bools)) else None
  {
    CollectStrings(strs);
    CollectInts(ints);
    CollectBools(bools);
    CollectConcat(IntItems(ints), BoolItems(bools));
    CollectConcat(StringItems(strs), IntItems(ints) + BoolItems(bools));
    hide Clean, Collect, StringItems, IntItems, BoolItems;
  }

  lemma MemberPrints(strs: seq<Field>, ints: seq<IntField>, bools: seq<BoolField>, i: nat)
    requires i < |strs| + |ints| + |bools|
    ensures
      var m := (StringMembers(strs) + (IntMembers(ints) + BoolMembers(bools)))[i];
      var item := Items(strs, ints, bools)[i];
      m.key == item.key && Prints(m.text, item.value)
  {
    hide Prints, Literal, Decimal, Clean;
    if i < |strs| {
      StringPrints(strs[i].value);
    } else if i < |strs| + |ints| {
      NumberPrints(ints[i - |strs|].value);
    } else {
      TruthPrints(bools[i - |strs| - |ints|].value);
    }
  }

  lemma DataPrints(strs: seq<Field>, ints: seq<IntField>, bools: seq<BoolField>)
    ensures Prints(DataObject(strs, ints, bools),
                   if AllClean(strs, ints, bools) then Some(Obj(Wanted(strs, ints, bools))) else None)
  {
    var items, members := Items(strs, ints, bools), StringMembers(strs) + (IntMembers(ints) + BoolMembers(bools));
    forall i | 0 <= i < |members| ensures members[i].key == items[i].key && Prints(members[i].text, items[i].value) {
      MemberPrints(strs, ints, bools, i);
    }
    StylesJson();
    CollectFields(strs, ints, bools);
    hide Prints, Collect, Wanted, AllClean, ObjectText, JsonStyle;
    ObjectPrints(members, items, SERVER);
  }

  lemma WordClean(w: string)
    requires IsWord(w)
    ensures Clean(w)
  {
  }

  lemma HeadClean()
    ensures Clean("type") && Clean("request_id") && Clean("data") && Clean("timestamp")
  {
    WordClean("type");
    WordClean("request_id");
    WordClean("data");
    WordClean("timestamp");
  }

  lemma ThreeItems(a: Printed, b: Printed, c: Printed)
    ensures Collect([a, b, c]) ==
      if Clean(a.key) && Clean(b.key) && Clean(c.key) && a.value.Some? && b.value.Some? && c.value.Some?
      then Some([(a.key, a.value.value), (b.key, b.value.value), (c.key, c.value.value)]) else None
  {
    hide Clean, Collect;
    var items, none := [a, b, c], Num(0);
    var ms := [(a.key, if a.value.Some? then a.value.value else none),
               (b.key, if b.value.Some? then b.value.value else none),
               (c.key, if c.value.Some? then c.value.value else none)];
    CollectAll(items, ms);
    assert items[0] == a && items[1] == b && items[2] == c;
  }

  lemma ReadWhole(text: string)
    requires text != "" && !IsWhite(text[0]) && (ReadValue(text).Some? ==> ReadValue(text).value.1 == "")
    ensures Read(text) == if ReadValue(text).None? then None else Some(ReadValue(text).value.0)
  {
    hide ReadValue;
  }

  // Every response the server builds is a JSON object of its type, its request id
  // and its data, and the data has exactly the members asked for, in order, with the
  // strings, numbers and truth values asked for; unless a string has a control
  // character that escapeJson leaves alone: then the response is no JSON at all.
  lemma ResponseIsJson(mtype: string, requestId: string,
                       strs: seq<Field>, ints: seq<IntField>, bools: seq<BoolField>)
    ensures Read(Response(mtype, requestId, strs, ints, bools)) ==
      if Clean(mtype) && Clean(requestId) && AllClean(strs, ints, bools) then
        Some(Obj([("type", Str(mtype)), ("request_id", Str(requestId)), ("data", Obj(Wanted(strs, ints, bools)))]))
      else None
  {
    var data := DataObject(strs, ints, bools);
    var value := if AllClean(strs, ints, bools) then Some(Obj(Wanted(strs, ints, bools))) else None;
    var members := [Member("type", Literal(mtype)), Member("request_id", Literal(requestId)), Member("data", data)];
    DataPrints(strs, ints, bools);
    HeadClean();
    ThreeRead(members, mtype, requestId, value);
  }

  lemma ThreeRead(members: seq<Member>, mtype: string, requestId: string, value: Option<Value>)
    requires |members| == 3 && Clean(members[0].key) && Clean(members[1].key) && Clean(members[2].key)
    requires members[0].text == Literal(mtype) && members[1].text == Literal(requestId)
    requires Prints(members[2].text, value)
    ensures Read(ObjectText(members, SERVER)) ==
      if Clean(mtype) && Clean(requestId) && value.Some? then
        Some(Obj([(members[0].key, Str(mtype)), (members[1].key, Str(requestId)), (members[2].key, value.value)]))
      else None
  {
    var a, b := StringItem(Field(members[0].key, mtype)), StringItem(Field(members[1].key, requestId));
    var c := Printed(members[2].key, value);
    StringPrints(mtype);
    StringPrints(requestId);
    StylesJson();
    ObjectPrints(members, [a, b, c], SERVER);
    ThreeItems(a, b, c);
    var text := ObjectText(members, SERVER);
    assert text[0] == '{';
    ReadWhole(text);
    hide Prints, Literal, Clean, ReadValue, Read, ObjectText, Collect;
  }

  // ----------------------------------------------------- what the client prints

  lemma FourItems(a: Printed, b: Printed, c: Printed, d: Printed)
    requires a.value.Some? && b.value.Some? && c.value.Some? && d.value.Some?
    requires Clean(a.key) && Clean(b.key) && Clean(c.key) && Clean(d.key)
    ensures Collect([a, b, c, d]) ==
      Some([(a.key, a.value.value), (b.key, b.value.value), (c.key, c.value.value), (d.key, d.value.value)])
  {
    hide Clean, Collect;
    var items := [a, b, c, d];
    var ms := [(a.key, a.value.value), (b.key, b.value.value), (c.key, c.value.value), (d.key, d.value.value)];
    CollectAll(items, ms);
    assert items[0] == a && items[1] == b && items[2] == c && items[3] == d;
  }

  lemma ClientDataPrints(fields: seq<Field>)
    requires AllClean(fields, [], [])
    ensures Prints(ObjectText(StringMembers(fields), CLIENT), Some(Obj(Wanted(fields, [], []))))
  {
    var items := Items(fields, [], []);
    forall i | 0 <= i < |fields|
      ensures StringMembers(fields)[i].key == items[i].key && Prints(StringMembers(fields)[i].text, items[i].value)
    {
      StringPrints(fields[i].value);
    }
    StylesJson();
    CollectFields(fields, [], []);
    hide Prints, Collect, Wanted, AllClean, ObjectText, JsonStyle;
    ObjectPrints(StringMembers(fields), items, CLIENT);
  }

  // A client's request is a JSON object of its four members.
  lemma EnvelopeIsJson(mtype: string, requestId: string, timestamp: int, fields: seq<Field>)
    requires Clean(mtype) && Clean(requestId) && AllClean(fields, [], [])
    ensures Read(Envelope(mtype, requestId, timestamp, fields)) ==
      Some(Obj([("type", Str(mtype)), ("request_id", Str(requestId)), ("timestamp", Num(timestamp)),
                ("data", Obj(Wanted(fields, [], [])))]))
  {
    var data := ObjectText(StringMembers(fields), CLIENT);
    ClientDataPrints(fields);
    HeadClean();
    StringPrints(mtype);
    StringPrints(requestId);
    NumberPrints(timestamp);
    StylesJson();
    FourRead([Member("type", Literal(mtype)), Member("request_id", Literal(requestId)),
              Member("timestamp", Decimal(timestamp)), Member("data", data)],
             Str(mtype), Str(requestId), Num(timestamp), Obj(Wanted(fields, [], [])));
  }

  lemma FourRead(members: seq<Member>, a: Value, b: Value, c: Value, d: Value)
    requires |members| == 4 && forall i :: 0 <= i < 4 ==> Clean(members[i].key)
    requires Prints(members[0].text, Some(a)) && Prints(members[1].text, Some(b))
    requires Prints(members[2].text, Some(c)) && Prints(members[3].text, Some(d))
    ensures Read(ObjectText(members, CLIENT)) ==
      Some(Obj([(members[0].key, a), (members[1].key, b), (members[2].key, c), (members[3].key, d)]))
  {
    var w, x := Printed(members[0].key, Some(a)), Printed(members[1].key, Some(b));
    var y, z := Printed(members[2].key, Some(c)), Printed(members[3].key, Some(d));
    StylesJson();
    ObjectPrints(members, [w, x, y, z], CLIENT);
    FourItems(w, x, y, z);
    var text := ObjectText(members, CLIENT);
    assert text[0] == '{';
    ReadWhole(text);
    hide Prints, Clean, ReadValue, Read, ObjectText, Collect;
  }
}
