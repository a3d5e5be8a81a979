// The messages themselves: buildResponse, parseClientMessage, and the client's
// envelope, as text.
module Messages {
  import opened Sequences
  import opened Escaping
  import opened Scanner
  import opened Layout
  import opened Fields

  // ---------------------------------------------------------------- numbers

  function Digit(d: nat): char
    requires d < 10
  {
    ('0' as int + d) as char
  }

  function Digits(n: nat): string {
    if n < 10 then [Digit(n)] else Digits(n / 10) + [Digit(n % 10)]
  }

  function Decimal(n: int): string { if n < 0 then "-" + Digits(-n) else Digits(n) }

  // ------------------------------------------------------------ object text

  // An object member: its key, and the text of its value.
  datatype Member = Member(key: string, text: string)

  function MemberText(m: Member, style: Style): string { Literal(m.key) + style.colon + m.text }

  // Members, each after a comma.
  function CommaEach(members: seq<Member>, style: Style): string {
    if members == [] then ""
    else style.comma + MemberText(members[0], style) + CommaEach(members[1..], style)
  }

  function Join(members: seq<Member>, style: Style): string {
    if members == [] then "" else MemberText(members[0], style) + CommaEach(members[1..], style)
  }

  function ObjectText(members: seq<Member>, style: Style): string { "{" + Join(members, style) + "}" }

  function StringMembers(strs: seq<Field>): seq<Member> {
    seq(|strs|, i requires 0 <= i < |strs| => Member(strs[i].key, Literal(strs[i].value)))
  }

  lemma {:induction false} CommaEachAppend(members: seq<Member>, style: Style, m: Member)
    ensures CommaEach(members + [m], style) == CommaEach(members, style) + style.comma + MemberText(m, style)
    decreases |members|
  {
    if members == [] {
    } else {
      CommaEachAppend(members[1..], style, m);
      assert (members + [m])[1..] == members[1..] + [m];
    }
  }

  predicate IsWord(w: string) {
    w != "" && forall i :: 0 <= i < |w| ==> w[i] == '_' || 'a' <= w[i] <= 'z'
  }

  lemma WordIsKey(w: string)
    requires IsWord(w)
    ensures SimpleKey(w)
  {
    forall c | c in w ensures EscapeChar(c) == [c] && !IsPunctuation(c) {
      var i :| 0 <= i < |w| && w[i] == c;
    }
  }

  // The keys both sides search for.
  lemma ProtocolKeys()
    ensures SimpleKey("type") && SimpleKey("request_id") && SimpleKey("data") && SimpleKey("timestamp")
    ensures SimpleKey("username") && SimpleKey("password") && SimpleKey("text")
  {
    WordIsKey("type");
    WordIsKey("request_id");
    WordIsKey("data");
    WordIsKey("timestamp");
    WordIsKey("username");
    WordIsKey("password");
    WordIsKey("text");
  }

  // ---------------------------------------------------------- buildResponse

  // The separators buildResponse writes.
  const SERVER: Style := Style("{", ",", ":")

  datatype IntField = IntField(key: string, value: int)
  datatype BoolField = BoolField(key: string, value: bool)

  function IntMembers(ints: seq<IntField>): seq<Member> {
    seq(|ints|, i requires 0 <= i < |ints| => Member(ints[i].key, Decimal(ints[i].value)))
  }

  function BoolMembers(bools: seq<BoolField>): seq<Member> {
    seq(|bools|, i requires 0 <= i < |bools| => Member(bools[i].key, if bools[i].value then "true" else "false"))
  }

  function DataObject(strs: seq<Field>, ints: seq<IntField>, bools: seq<BoolField>): string {
    ObjectText(StringMembers(strs) + (IntMembers(ints) + BoolMembers(bools)), SERVER)
  }

  // The response as an object of three members.
  function Response(mtype: string, requestId: string,
                    strs: seq<Field>, ints: seq<IntField>, bools: seq<BoolField>): string {
    ObjectText([Member("type", Literal(mtype)), Member("request_id", Literal(requestId)),
                Member("data", DataObject(strs, ints, bools))], SERVER)
  }

  // The comma lambda: a comma before every member but the first.
  method AddMember(body: string, first: bool, text: string, ghost done: seq<Member>, ghost m: Member)
    returns (body': string)
    requires body == Join(done, SERVER) && first == (done == []) && text == MemberText(m, SERVER)
    ensures body' == Join(done + [m], SERVER)
  {
    body' := if first then body + text else body + "," + text;
    JoinAppend(done, m);
  }

  lemma JoinAppend(done: seq<Member>, m: Member)
    ensures Join(done + [m], SERVER) ==
      if done == [] then MemberText(m, SERVER) else Join(done, SERVER) + "," + MemberText(m, SERVER)
  {
    if done == [] {
      assert [m][1..] == [];
      assert CommaEach([], SERVER) == "";
    } else {
      CommaEachAppend(done[1..], SERVER, m);
      assert (done + [m])[1..] == done[1..] + [m];
      Regroup4(MemberText(done[0], SERVER), CommaEach(done[1..], SERVER), ",", MemberText(m, SERVER));
    }
  }

  lemma Regroup4(a: string, b: string, c: string, d: string)
    ensures a + (b + c + d) == (a + b) + c + d
  {
  }

  // The three loops, over string, integer and boolean members. done lists the
  // members already in the body.
  method AddStrings(strs: seq<Field>) returns (body: string)
    ensures body == Join(StringMembers(strs), SERVER)
  {
    body := "";
    ghost var all := StringMembers(strs);
    for i := 0 to |strs|
      invariant body == Join(all[..i], SERVER)
    {
      var k := EscapeJson(strs[i].key);
      var v := EscapeJson(strs[i].value);
      StringMemberText(k, v);
      assert all[..i + 1] == all[..i] + [all[i]];
      body := AddMember(body, i == 0, "\"" + k + "\":\"" + v + "\"", all[..i], all[i]);
    }
    assert all[..|strs|] == all;
  }

  method AddInts(body: string, first: bool, ints: seq<IntField>, ghost done: seq<Member>) returns (body': string)
    requires body == Join(done, SERVER) && first == (done == [])
    ensures body' == Join(done + IntMembers(ints), SERVER)
  {
    body' := body;
    ghost var all := IntMembers(ints);
    assert done + all[..0] == done;
    for i := 0 to |ints|
      invariant body' == Join(done + all[..i], SERVER)
    {
      var k := EscapeJson(ints[i].key);
      MemberTextIs(k, Decimal(ints[i].value));
      assert done + all[..i + 1] == done + all[..i] + [all[i]];
      body' := AddMember(body', first && i == 0, "\"" + k + "\":" + Decimal(ints[i].value), done + all[..i], all[i]);
    }
    assert all[..|ints|] == all;
  }

  method AddBools(body: string, first: bool, bools: seq<BoolField>, ghost done: seq<Member>) returns (body': string)
    requires body == Join(done, SERVER) && first == (done == [])
    ensures body' == Join(done + BoolMembers(bools), SERVER)
  {
    body' := body;
    ghost var all := BoolMembers(bools);
    assert done + all[..0] == done;
    for i := 0 to |bools|
      invariant body' == Join(done + all[..i], SERVER)
    {
      var k := EscapeJson(bools[i].key);
      var text := if bools[i].value then "true" else "false";
      MemberTextIs(k, text);
      assert done + all[..i + 1] == done + all[..i] + [all[i]];
      body' := AddMember(body', first && i == 0, "\"" + k + "\":" + text, done + all[..i], all[i]);
    }
    assert all[..|bools|] == all;
  }

  method BuildResponse(mtype: string, requestId: string,
                       strs: seq<Field>, ints: seq<IntField>, bools: seq<BoolField>) returns (json: string)
    ensures json == Response(mtype, requestId, strs, ints, bools)
  {
    var etype := EscapeJson(mtype);
    var eid := EscapeJson(requestId);
    var body := AddStrings(strs);
    ghost var done := StringMembers(strs);
    body := AddInts(body, |strs| == 0, ints, done);
    body := AddBools(body, |strs| + |ints| == 0, bools, done + IntMembers(ints));
    json := "{" + (Token("type") + ":" + ("\"" + etype + "\"")) +
            "," + (Token("request_id") + ":" + ("\"" + eid + "\"")) +
            "," + (Token("data") + ":" + ("{" + body + "}")) + "}";
    assert done + IntMembers(ints) + BoolMembers(bools) == done + (IntMembers(ints) + BoolMembers(bools));
    HeadText(mtype, requestId, body);
  }

  // buildResponse's fixed text is that of the three members.
  lemma HeadText(mtype: string, requestId: string, body: string)
    ensures "{" + (Token("type") + ":" + Literal(mtype)) + "," + (Token("request_id") + ":" + Literal(requestId)) +
            "," + (Token("data") + ":" + ("{" + body + "}")) + "}"
         == ObjectText([Member("type", Literal(mtype)), Member("request_id", Literal(requestId)),
                        Member("data", "{" + body + "}")], SERVER)
  {
    ProtocolKeys();
    KeyLiteral("type");
    KeyLiteral("request_id");
    KeyLiteral("data");
    JoinThree(Member("type", Literal(mtype)), Member("request_id", Literal(requestId)),
              Member("data", "{" + body + "}"));
  }

  lemma JoinThree(m1: Member, m2: Member, m3: Member)
    ensures ObjectText([m1, m2, m3], SERVER)
         == "{" + MemberText(m1, SERVER) + "," + MemberText(m2, SERVER) + "," + MemberText(m3, SERVER) + "}"
  {
    var t1, t2, t3 := MemberText(m1, SERVER), MemberText(m2, SERVER), MemberText(m3, SERVER);
    assert [m1, m2, m3][1..] == [m2, m3] && [m2, m3][1..] == [m3] && [m3][1..] == [];
    assert CommaEach([m3], SERVER) == "," + t3 + "";
    assert CommaEach([m2, m3], SERVER) == "," + t2 + CommaEach([m3], SERVER);
    assert Join([m1, m2, m3], SERVER) == t1 + ("," + t2 + ("," + t3 + ""));
  }

  lemma MemberTextIs(k: string, text: string)
    ensures "\"" + k + "\":" + text == ("\"" + k + "\"") + ":" + text
  {
  }

  lemma StringMemberText(k: string, v: string)
    ensures "\"" + k + "\":\"" + v + "\"" == ("\"" + k + "\"") + ":" + ("\"" + v + "\"")
  {
  }

  // ----------------------------------------------------- parseClientMessage

  datatype ClientMessage = ClientMessage(mtype: string, requestId: string, data: map<string, string>)

  // On failure the caller still reads the request id of the partial message.
  datatype Parsed = Ok(msg: ClientMessage) | Bad(msg: ClientMessage, err: string)

  function Parse(json: string): Parsed {
    match ExtractString(json, "type")
    case None => Bad(ClientMessage("", "", map[]), "missing or invalid field: type")
    case Some(mtype) =>
      var id := ExtractString(json, "request_id");
      var msg := ClientMessage(mtype, if id.Some? then id.value else "", map[]);
      match ExtractObject(json, "data")
      case None => Bad(msg, "missing or invalid field: data")
      case Some(data) =>
        if mtype == "login_req" then ParseLogin(msg, data)
        else if mtype == "chat_req" then ParseChat(msg, data)
        else Bad(msg, "unsupported message type")
  }

  function ParseLogin(msg: ClientMessage, data: string): Parsed {
    match ExtractString(data, "username")
    case None => Bad(msg, "missing or invalid field: data.username")
    case Some(username) =>
      match ExtractString(data, "password")
      case None => Bad(msg, "missing or invalid field: data.password")
      case Some(password) => Ok(msg.(data := map["username" := username, "password" := password]))
  }

  function ParseChat(msg: ClientMessage, data: string): Parsed {
    match ExtractString(data, "text")
    case None => Bad(msg, "missing or invalid field: data.text")
    case Some(text) => Ok(msg.(data := map["text" := text]))
  }

  // The request id the scanner reads, empty if it reads none.
  function RequestId(json: string): string {
    var id := ExtractString(json, "request_id");
    if id.Some? then id.value else ""
  }

  // A field of the data object, if both are read.
  function DataField(json: string, key: string): Option<string> {
    var data := ExtractObject(json, "data");
    if data.Some? then ExtractString(data.value, key) else None
  }

  predicate IsLogin(json: string) { ExtractString(json, "type") == Some("login_req") }

  predicate IsChat(json: string) { ExtractString(json, "type") == Some("chat_req") }

  // A type is read, and a data object, but the type is neither of the two.
  predicate Unsupported(json: string) {
    ExtractString(json, "type").Some? && ExtractObject(json, "data").Some? && !IsLogin(json) && !IsChat(json)
  }

  // Which messages the parser accepts, and what of them, for every text: a login
  // whose username and password are read, or a chat line whose text is.
  lemma ParseSucceeds(json: string)
    ensures Parse(json).Ok? <==>
      || (IsLogin(json) && DataField(json, "username").Some? && DataField(json, "password").Some?)
      || (IsChat(json) && DataField(json, "text").Some?)
    ensures Parse(json).Ok? && IsLogin(json) ==>
      var username, password := DataField(json, "username").value, DataField(json, "password").value;
      Parse(json).msg.data == map["username" := username, "password" := password]
    ensures Parse(json).Ok? && IsChat(json) ==> Parse(json).msg.data == map["text" := DataField(json, "text").value]
    ensures ExtractString(json, "type").Some? ==>
      Parse(json).msg.mtype == ExtractString(json, "type").value && Parse(json).msg.requestId == RequestId(json)
  {
    hide ExtractString, ExtractObject;
  }

  // And what it reports of the others: the first field it misses, or the type.
  lemma ParseFails(json: string)
    ensures Parse(json).Bad? && Parse(json).err == "unsupported message type" <==> Unsupported(json)
    ensures ExtractString(json, "type").None? ==>
      Parse(json) == Bad(ClientMessage("", "", map[]), "missing or invalid field: type")
    ensures ExtractString(json, "type").Some? && ExtractObject(json, "data").None? ==>
      Parse(json).Bad? && Parse(json).err == "missing or invalid field: data"
    ensures IsLogin(json) && ExtractObject(json, "data").Some? && DataField(json, "username").None? ==>
      Parse(json).Bad? && Parse(json).err == "missing or invalid field: data.username"
    ensures IsLogin(json) && DataField(json, "username").Some? && DataField(json, "password").None? ==>
      Parse(json).Bad? && Parse(json).err == "missing or invalid field: data.password"
    ensures IsChat(json) && ExtractObject(json, "data").Some? && DataField(json, "text").None? ==>
      Parse(json).Bad? && Parse(json).err == "missing or invalid field: data.text"
  {
    hide ExtractString, ExtractObject;
    assert "unsupported message type"[0] == 'u' && "chat_req"[0] == 'c' && "login_req"[0] == 'l';
    assert "missing or invalid field: type"[0] == "missing or invalid field: data"[0] == 'm';
    assert "missing or invalid field: data.username"[0] == "missing or invalid field: data.password"[0] == 'm';
    assert "missing or invalid field: data.text"[0] == 'm';
  }

  method ParseClientMessage(json: string) returns (r: Parsed)
    ensures r == Parse(json)
    ensures r.Ok? <==>
      || (IsLogin(json) && DataField(json, "username").Some? && DataField(json, "password").Some?)
      || (IsChat(json) && DataField(json, "text").Some?)
    ensures r.Bad? && r.err == "unsupported message type" <==> Unsupported(json)
  {
    ParseSucceeds(json);
    ParseFails(json);
    var msg := ClientMessage("", "", map[]);
    var mtype := ExtractStringValue(json, "type");
    if mtype.None? { return Bad(msg, "missing or invalid field: type"); }
    msg := msg.(mtype := mtype.value);
    var id := ExtractStringValue(json, "request_id");
    if id.Some? { msg := msg.(requestId := id.value); }
    var data := ExtractObjectValue(json, "data");
    if data.None? { return Bad(msg, "missing or invalid field: data"); }
    if msg.mtype == "login_req" {
      var username := ExtractStringValue(data.value, "username");
      if username.None? { return Bad(msg, "missing or invalid field: data.username"); }
      var password := ExtractStringValue(data.value, "password");
      if password.None? { return Bad(msg, "missing or invalid field: data.password"); }
      msg := msg.(data := msg.data["username" := username.value]);
      msg := msg.(data := msg.data["password" := password.value]);
      return Ok(msg);
    }
    if msg.mtype == "chat_req" {
      var text := ExtractStringValue(data.value, "text");
      if text.None? { return Bad(msg, "missing or invalid field: data.text"); }
      return Ok(msg.(data := msg.data["text" := text.value]));
    }
    return Bad(msg, "unsupported message type");
  }

  // ------------------------------------------------------ the client's side

  // The separators json.dumps writes by default.
  const CLIENT: Style := Style("{", ", ", ": ")

  // json.dumps of the request dictionary.
  function Envelope(mtype: string, requestId: string, timestamp: int, fields: seq<Field>): string {
    ObjectText([Member("type", Literal(mtype)), Member("request_id", Literal(requestId)),
                Member("timestamp", Decimal(timestamp)),
                Member("data", ObjectText(StringMembers(fields), CLIENT))], CLIENT)
  }

  function LoginRequest(requestId: string, timestamp: int, username: string, password: string): string {
    Envelope("login_req", requestId, timestamp, [Field("username", username), Field("password", password)])
  }

  function ChatRequest(requestId: string, timestamp: int, text: string): string {
    Envelope("chat_req", requestId, timestamp, [Field("text", text)])
  }
}
