// What the chat service answers to one message, and what it sends: validation,
// error codes, and the payloads of its responses.
module ChatRules {
  import opened Sequences
  import opened Escaping
  import opened Framing
  import opened Scanner
  import opened Layout
  import opened Fields
  import opened Messages
  import opened RoundTrips

  // ---------------------------------------------------------------- payloads

  function ChatPayload(username: string, userId: int, text: string): string {
    Response("chat_broadcast", "", [Field("username", username), Field("text", text)],
             [IntField("user_id", userId)], [])
  }

  function SystemPayload(message: string): string {
    Response("system", "", [Field("message", message)], [IntField("code", 2001)], [])
  }

  function ErrorPayload(requestId: string, code: int, message: string): string {
    Response("error", requestId, [Field("message", message)], [IntField("code", code)], [])
  }

  function LoginRefusal(requestId: string, code: int, message: string): string {
    Response("login_resp", requestId, [Field("message", message)], [IntField("code", code)],
             [BoolField("success", false)])
  }

  function LoginSuccess(requestId: string, user: User): string {
    Response("login_resp", requestId, [Field("message", "login success"), Field("username", user.username)],
             [IntField("code", 0), IntField("user_id", user.id)], [BoolField("success", true)])
  }

  // -------------------------------------------------------------- validation

  // The error of a refused request; None when it is accepted.
  function ValidateLogin(data: map<string, string>): Option<string> {
    if "username" !in data || data["username"] == "" then Some("username cannot be empty")
    else if "password" !in data || data["password"] == "" then Some("password cannot be empty")
    else if |data["username"]| > 32 then Some("username too long")
    else if |data["password"]| > 64 then Some("password too long")
    else None
  }

  const MAX_TEXT: nat := 1024

  function ValidateChat(data: map<string, string>): Option<string> {
    if "text" !in data || data["text"] == "" then Some("chat text cannot be empty")
    else if |data["text"]| > MAX_TEXT then Some("chat text too long")
    else None
  }

  // --------------------------------------------------------------- onMessage

  datatype User = User(id: int, username: string, password: string, online: bool)

  datatype Reaction =
    | Reply(payload: string)
    | LogIn(user: User, reply: string, notice: string)
    | Broadcast(payload: string)

  // stored is what the two database lookups find for the requested username.
  function ReactToLogin(msg: ClientMessage, stored: Option<User>): Reaction {
    var bad := ValidateLogin(msg.data);
    if bad.Some? then Reply(LoginRefusal(msg.requestId, 3004, bad.value))
    else if stored.None? || stored.value.password != msg.data["password"] then
      Reply(LoginRefusal(msg.requestId, 1001, "invalid username or password"))
    else if stored.value.online then Reply(LoginRefusal(msg.requestId, 1002, "user already online"))
    else
      LogIn(stored.value, LoginSuccess(msg.requestId, stored.value),
            SystemPayload(stored.value.username + " joined the chat"))
  }

  function ReactToChat(msg: ClientMessage, loggedIn: bool, userId: int, username: string): Reaction {
    var bad := ValidateChat(msg.data);
    if !loggedIn then Reply(ErrorPayload(msg.requestId, 3002, "user not logged in"))
    else if bad.Some? then Reply(ErrorPayload(msg.requestId, 3004, bad.value))
    else Broadcast(ChatPayload(username, userId, msg.data["text"]))
  }

  function React(p: Parsed, loggedIn: bool, userId: int, username: string, stored: Option<User>): Reaction {
    match p
    case Bad(msg, err) =>
      Reply(ErrorPayload(msg.requestId, if err == "unsupported message type" then 3003 else 3004, err))
    case Ok(msg) =>
      if msg.mtype == "login_req" then ReactToLogin(msg, stored)
      else ReactToChat(msg, loggedIn, userId, username)
  }

  lemma ReactToText(mtype: string, id: string, text: string,
                    loggedIn: bool, userId: int, username: string, stored: Option<User>)
    requires mtype != "login_req"
    ensures React(Ok(ClientMessage(mtype, id, map["text" := text])), loggedIn, userId, username, stored) ==
      if !loggedIn then Reply(ErrorPayload(id, 3002, "user not logged in"))
      else if text == "" then Reply(ErrorPayload(id, 3004, "chat text cannot be empty"))
      else if |text| > MAX_TEXT then Reply(ErrorPayload(id, 3004, "chat text too long"))
      else Broadcast(ChatPayload(username, userId, text))
  {
    hide ErrorPayload, ChatPayload;
  }

  // A chat request from the client is broadcast, word for word, exactly when its
  // user is logged in and its text has between 1 and 1024 bytes; any other is
  // refused, with the code of the first rule it breaks.
  lemma {:induction false} ChatRelayed(id: nat, timestamp: int, text: string,
                                           loggedIn: bool, userId: int, username: string, stored: Option<User>)
    ensures React(Parse(ChatRequest(Digits(id), timestamp, text)), loggedIn, userId, username, stored) ==
      if !loggedIn then Reply(ErrorPayload(Digits(id), 3002, "user not logged in"))
      else if text == "" then Reply(ErrorPayload(Digits(id), 3004, "chat text cannot be empty"))
      else if |text| > 1024 then Reply(ErrorPayload(Digits(id), 3004, "chat text too long"))
      else Broadcast(ChatPayload(username, userId, text))
  {
    var raw := ChatRequest(Digits(id), timestamp, text);
    assert Parse(raw) == Ok(ClientMessage("chat_req", Digits(id), map["text" := text])) by {
      NumberedRequests(id, timestamp, "", "", text);
    }
    assert "chat_req" != "login_req" by { LoginTypes(); }
    ReactToText("chat_req", Digits(id), text, loggedIn, userId, username, stored);
  }

  // What the client reads under a key of a payload's data.
  function ReadData(payload: string, key: string): Option<string> {
    var data := ExtractObject(payload, "data");
    if data.None? then None else ExtractString(data.value, key)
  }

  // The first two strings of a response read back unchanged.
  lemma StringRead(mtype: string, requestId: string, strs: seq<Field>, ints: seq<IntField>, bools: seq<BoolField>,
                   i: nat)
    requires !LooksLike(mtype, "data") && Distinct(strs) && i < |strs| && i < 2
    ensures ReadData(Response(mtype, requestId, strs, ints, bools), strs[i].key) == Some(strs[i].value)
  {
    hide LooksLike, Distinct, Response, ObjectText;
    ResponseData(mtype, requestId, strs, ints, bools);
    StylesPunctuated();
    FirstTwoFields(strs, IntMembers(ints) + BoolMembers(bools), SERVER, i);
  }

  lemma ServerTypes()
    ensures !LooksLike("login_resp", "data") && !LooksLike("system", "data")
  {
    assert "login_resp"[0] == 'l' && "system"[0] == 's' && "data"[0] == 'd';
    WordUnlike("login_resp", "data");
    WordUnlike("system", "data");
  }

  lemma AnswerFields(message: string, name: string)
    ensures Distinct([Field("message", message)])
    ensures Distinct([Field("message", message), Field("username", name)])
  {
    assert SimpleKey("username") by { ProtocolKeys(); }
    assert SimpleKey("message") by { WordIsKey("message"); }
    assert "username"[0] == 'u' && "message"[0] == 'm';
    hide SimpleKey;
  }

  // The text of every login answer and notice reads back unchanged.
  lemma AnswersRead(requestId: string, code: int, message: string, user: User)
    ensures ReadData(LoginSuccess(requestId, user), "username") == Some(user.username)
    ensures ReadData(LoginRefusal(requestId, code, message), "message") == Some(message)
    ensures ReadData(SystemPayload(message), "message") == Some(message)
  {
    ServerTypes();
    AnswerFields("login success", user.username);
    AnswerFields(message, "");
    hide LooksLike, Distinct, Response, ReadData;
    StringRead("login_resp", requestId, [Field("message", "login success"), Field("username", user.username)],
               [IntField("code", 0), IntField("user_id", user.id)], [BoolField("success", true)], 1);
    StringRead("login_resp", requestId, [Field("message", message)],
               [IntField("code", code)], [BoolField("success", false)], 0);
    StringRead("system", "", [Field("message", message)], [IntField("code", 2001)], [], 0);
  }

  predicate Fits(user: string, password: string) { 1 <= |user| <= 32 && 1 <= |password| <= 64 }

  // The texts a refused login is given.
  const REFUSALS: seq<string> := [
    "username cannot be empty", "password cannot be empty", "username too long", "password too long",
    "invalid username or password", "user already online"]

  ghost predicate Refuses(r: Reaction, requestId: string, code: int) {
    exists why :: why in REFUSALS && r == Reply(LoginRefusal(requestId, code, why))
  }

  lemma KnownRefusals(data: map<string, string>)
    ensures ValidateLogin(data).Some? ==> ValidateLogin(data).value in REFUSALS
    ensures "invalid username or password" in REFUSALS && "user already online" in REFUSALS
  {
    assert REFUSALS[0] == "username cannot be empty" && REFUSALS[1] == "password cannot be empty";
    assert REFUSALS[2] == "username too long" && REFUSALS[3] == "password too long";
    assert REFUSALS[4] == "invalid username or password" && REFUSALS[5] == "user already online";
  }

  // Which rule a login breaks first, if one, by the sizes of its fields.
  lemma LoginFaults(user: string, password: string)
    ensures var fault := ValidateLogin(map["username" := user, "password" := password]);
      && (fault == Some("username cannot be empty") <==> |user| == 0)
      && (fault == Some("password cannot be empty") <==> |user| > 0 == |password|)
      && (fault == Some("username too long") <==> |user| >= 33 && |password| > 0)
      && (fault == Some("password too long") <==> 1 <= |user| <= 32 && |password| >= 65)
      && (fault == None <==> 1 <= |user| <= 32 && 1 <= |password| <= 64)
  {
  }

  ghost predicate Welcomes(r: Reaction, requestId: string, user: User) {
    && r == LogIn(user, LoginSuccess(requestId, user), SystemPayload(user.username + " joined the chat"))
    && ReadData(r.reply, "username") == Some(user.username)
    && ReadData(r.notice, "message") == Some(user.username + " joined the chat")
  }

  lemma CredentialsFit(user: string, password: string)
    ensures var data := map["username" := user, "password" := password];
      && (ValidateLogin(data).None? <==> Fits(user, password))
      && "password" in data && data["password"] == password
  {
    assert "username" != "password" by { LoginFields(user, password); }
  }

  lemma LoginAccepted(msg: ClientMessage, stored: User)
    requires ValidateLogin(msg.data).None? && stored.password == msg.data["password"] && !stored.online
    ensures ReactToLogin(msg, Some(stored)) ==
      LogIn(stored, LoginSuccess(msg.requestId, stored), SystemPayload(stored.username + " joined the chat"))
  {
    hide ValidateLogin, LoginSuccess, SystemPayload, LoginRefusal;
  }

  lemma LoginWelcomed(msg: ClientMessage, stored: User)
    requires ValidateLogin(msg.data).None? && stored.password == msg.data["password"] && !stored.online
    ensures Welcomes(ReactToLogin(msg, Some(stored)), msg.requestId, stored)
  {
    hide ValidateLogin, LoginSuccess, SystemPayload, ReadData, ReactToLogin, LoginRefusal;
    LoginAccepted(msg, stored);
    AnswersRead(msg.requestId, 0, stored.username + " joined the chat", stored);
  }

  lemma LoginVerdict(msg: ClientMessage, password: string, fits: bool, stored: Option<User>)
    requires ValidateLogin(msg.data).None? <==> fits
    requires "password" in msg.data && msg.data["password"] == password
    ensures
      var r := ReactToLogin(msg, stored);
      var known := stored.Some? && stored.value.password == password;
      if fits && known && !stored.value.online then Welcomes(r, msg.requestId, stored.value)
      else Refuses(r, msg.requestId, if !fits then 3004 else if !known then 1001 else 1002)
  {
    KnownRefusals(msg.data);
    hide ValidateLogin, LoginRefusal, LoginSuccess, SystemPayload, Welcomes, REFUSALS;
    if fits && stored.Some? && stored.value.password == password && !stored.value.online {
      LoginWelcomed(msg, stored.value);
    }
  }

  // A login request from the client succeeds exactly when its fields fit, the user
  // is stored with that password and is not online; the client then reads the stored
  // name, and everybody else a notice with it. Any other request is refused: 3004 for
  // a field that does not fit, 1001 for a user unknown or a password wrong, and 1002
  // for a user already online.
  lemma LoginDecided(id: nat, timestamp: int, user: string, password: string,
                     loggedIn: bool, userId: int, username: string, stored: Option<User>)
    ensures
      var raw := LoginRequest(Digits(id), timestamp, user, password);
      var r := React(Parse(raw), loggedIn, userId, username, stored);
      var known := stored.Some? && stored.value.password == password;
      if Fits(user, password) && known && !stored.value.online then Welcomes(r, Digits(id), stored.value)
      else Refuses(r, Digits(id), if !Fits(user, password) then 3004 else if !known then 1001 else 1002)
  {
    var msg := ClientMessage("login_req", Digits(id), map["username" := user, "password" := password]);
    assert Parse(LoginRequest(Digits(id), timestamp, user, password)) == Ok(msg) by {
      NumberedRequests(id, timestamp, user, password, "");
    }
    CredentialsFit(user, password);
    LoginVerdict(msg, password, Fits(user, password), stored);
    assert React(Ok(msg), loggedIn, userId, username, stored) == ReactToLogin(msg, stored) by { hide ReactToLogin; }
    hide *;
  }

  // ---------------------------------------------------- refused by the parser

  // A message of another type is answered with 3003, and nothing else.
  lemma UnsupportedAnswered(json: string, loggedIn: bool, userId: int, username: string, stored: Option<User>)
    requires Unsupported(json)
    ensures React(Parse(json), loggedIn, userId, username, stored) ==
      Reply(ErrorPayload(RequestId(json), 3003, "unsupported message type"))
  {
    ParseSucceeds(json);
    ParseFails(json);
    hide ErrorPayload, Parse, Unsupported, RequestId;
  }

  // One that misses a field is answered with 3004 and the field.
  lemma MissingAnswered(json: string, loggedIn: bool, userId: int, username: string, stored: Option<User>)
    requires !Unsupported(json) && Parse(json).Bad?
    ensures React(Parse(json), loggedIn, userId, username, stored) ==
      Reply(ErrorPayload(Parse(json).msg.requestId, 3004, Parse(json).err))
  {
    ParseFails(json);
    hide ErrorPayload, Parse, Unsupported;
  }

  // What the client sends with another type: 3003 with its request id, unless the
  // type or the id sends the search for the data astray; then 3004.
  lemma OtherTypeAnswered(mtype: string, requestId: string, timestamp: int, fields: seq<Field>,
                          loggedIn: bool, userId: int, username: string, stored: Option<User>)
    requires mtype != "login_req" && mtype != "chat_req"
    ensures React(Parse(Envelope(mtype, requestId, timestamp, fields)), loggedIn, userId, username, stored) ==
      if LooksLike(mtype, "data") || LooksLike(requestId, "data")
      then Reply(ErrorPayload(requestId, 3004, "missing or invalid field: data"))
      else Reply(ErrorPayload(requestId, 3003, "unsupported message type"))
  {
    var json := Envelope(mtype, requestId, timestamp, fields);
    EnvelopeRead(mtype, requestId, timestamp, fields);
    hide Envelope, LooksLike, ExtractString, ExtractObject, ErrorPayload, Parse, React;
    if Unsupported(json) {
      UnsupportedAnswered(json, loggedIn, userId, username, stored);
    } else {
      ParseFails(json);
      ParseSucceeds(json);
      MissingAnswered(json, loggedIn, userId, username, stored);
    }
  }

  // ------------------------------------------------------------------- sizes

  function TextSize(members: seq<Member>): nat {
    if members == [] then 0
    else 2 * |members[0].key| + |members[0].text| + 4 + TextSize(members[1..])
  }

  lemma MemberSize(m: Member)
    ensures |MemberText(m, SERVER)| <= 2 * |m.key| + |m.text| + 3
  {
    EscapeSize(m.key);
  }

  lemma {:induction false} CommaEachSize(members: seq<Member>)
    ensures |CommaEach(members, SERVER)| <= TextSize(members)
    decreases |members|
  {
    if members != [] {
      MemberSize(members[0]);
      CommaEachSize(members[1..]);
    }
  }

  lemma {:induction false} ObjectSize(members: seq<Member>)
    ensures 2 <= |ObjectText(members, SERVER)| <= 2 + TextSize(members)
  {
    if members != [] {
      MemberSize(members[0]);
      CommaEachSize(members[1..]);
    }
  }

  lemma ThreeSize(m1: Member, m2: Member, m3: Member)
    ensures TextSize([m1, m2, m3])
         == 2 * (|m1.key| + |m2.key| + |m3.key|) + |m1.text| + |m2.text| + |m3.text| + 12
  {
    assert [m1, m2, m3][1..] == [m2, m3] && [m2, m3][1..] == [m3] && [m3][1..] == [];
    assert TextSize([m3]) == 2 * |m3.key| + |m3.text| + 4;
    assert TextSize([m2, m3]) == 2 * |m2.key| + |m2.text| + 4 + TextSize([m3]);
  }

  function Pow10(k: nat): nat { if k == 0 then 1 else 10 * Pow10(k - 1) }

  lemma {:induction false} DigitsSize(n: nat, k: nat)
    requires k >= 1 && n < Pow10(k)
    ensures |Digits(n)| <= k
    decreases k
  {
    if n >= 10 { DigitsSize(n / 10, k - 1); }
  }

  lemma Int32Size(n: int)
    requires -0x8000_0000 <= n < 0x8000_0000
    ensures |Decimal(n)| <= 11
  {
    assert Pow10(5) == 100_000;
    assert Pow10(10) == 10_000_000_000;
    DigitsSize(if n < 0 then -n else n, 10);
  }

  lemma LiteralSize(s: string)
    ensures 2 <= |Literal(s)| <= 2 * |s| + 2
  {
    EscapeSize(s);
  }

  // Broadcast size bound: the payload for every accepted text and every username
  // of at most 128 bytes (32 characters of utf8mb4) fits a frame.
  lemma ChatPayloadFits(username: string, userId: int, text: string)
    requires ValidateChat(map["text" := text]) == None && |username| <= 128
    requires -0x8000_0000 <= userId < 0x8000_0000
    ensures 1 <= |ChatPayload(username, userId, text)| <= 2500
  {
    AcceptedText(text);
    ChatDataSize(username, userId, text);
    DataText(username, userId, text);
    var mtype := "chat_broadcast";
    assert |mtype| == 14;
    ResponseSize(mtype, [Field("username", username), Field("text", text)], [IntField("user_id", userId)]);
  }

  lemma AcceptedText(text: string)
    ensures ValidateChat(map["text" := text]) == None <==> 1 <= |text| <= MAX_TEXT
  {
  }

  lemma ResponseSize(mtype: string, strs: seq<Field>, ints: seq<IntField>)
    ensures 2 <= |Response(mtype, "", strs, ints, [])| <= 2 * |mtype| + |DataObject(strs, ints, [])| + 56
  {
    HeadSize(mtype, DataObject(strs, ints, []));
  }

  function ChatMembers(username: string, userId: int, text: string): seq<Member> {
    [Member("username", Literal(username)), Member("text", Literal(text)), Member("user_id", Decimal(userId))]
  }

  lemma ChatDataSize(username: string, userId: int, text: string)
    requires -0x8000_0000 <= userId < 0x8000_0000
    ensures |ObjectText(ChatMembers(username, userId, text), SERVER)| <= 2 * (|username| + |text|) + 67
  {
    LiteralSize(username);
    LiteralSize(text);
    Int32Size(userId);
    var u, t := Member("username", Literal(username)), Member("text", Literal(text));
    var i := Member("user_id", Decimal(userId));
    ThreeSize(u, t, i);
    ObjectSize([u, t, i]);
  }

  lemma HeadSize(mtype: string, data: string)
    ensures var m := [Member("type", Literal(mtype)), Member("request_id", Literal("")), Member("data", data)];
      2 <= |ObjectText(m, SERVER)| <= 2 * |mtype| + |data| + 56
  {
    LiteralSize(mtype);
    LiteralSize("");
    var t, r, d := Member("type", Literal(mtype)), Member("request_id", Literal("")), Member("data", data);
    ThreeSize(t, r, d);
    ObjectSize([t, r, d]);
  }

  lemma DataText(username: string, userId: int, text: string)
    ensures DataObject([Field("username", username), Field("text", text)], [IntField("user_id", userId)], [])
         == ObjectText(ChatMembers(username, userId, text), SERVER)
  {
    var strs, ints := [Field("username", username), Field("text", text)], [IntField("user_id", userId)];
    assert StringMembers(strs) + (IntMembers(ints) + BoolMembers([]))
        == ChatMembers(username, userId, text);
  }

  // From one user's keyboard to another's screen: the text of an accepted chat
  // request comes back, with the sender's name, out of the frame broadcast,
  // whatever follows it on the stream.
  lemma BroadcastArrives(username: string, userId: int, text: string, rest: string)
    requires ValidateChat(map["text" := text]) == None && |username| <= 128
    requires -0x8000_0000 <= userId < 0x8000_0000
    ensures var payload := ChatPayload(username, userId, text);
      && TryExtract(Frame(payload) + rest) == Body(payload, rest)
      && exists data :: ExtractObject(payload, "data") == Some(data) &&
           ExtractString(data, "username") == Some(username) && ExtractString(data, "text") == Some(text)
  {
    ChatPayloadFits(username, userId, text);
    FrameRoundTrip(ChatPayload(username, userId, text), rest);
    RelayLossless(username, text, userId);
  }

  // ------------------------------------------------ every payload can be sent

  predicate SmallField(f: Field, n: nat) { |f.key| <= 10 && |f.value| <= n }
  predicate SmallInt(i: IntField) { |i.key| <= 10 && -0x8000_0000 <= i.value < 0x8000_0000 }

  lemma {:induction false} MembersSize(members: seq<Member>, b: nat)
    requires forall i :: 0 <= i < |members| ==> 2 * |members[i].key| + |members[i].text| + 4 <= b
    ensures TextSize(members) <= |members| * b
    decreases |members|
  {
    if members != [] { MembersSize(members[1..], b); }
  }

  // Five short members and strings of at most n bytes make a short object.
  lemma DataWithin(strs: seq<Field>, ints: seq<IntField>, bools: seq<BoolField>, n: nat)
    requires |strs| + |ints| + |bools| <= 5
    requires forall i :: 0 <= i < |strs| ==> SmallField(strs[i], n)
    requires forall i :: 0 <= i < |ints| ==> SmallInt(ints[i])
    requires forall i :: 0 <= i < |bools| ==> |bools[i].key| <= 10
    ensures |DataObject(strs, ints, bools)| <= 10 * n + 177
  {
    hide TextSize;
    var b := 2 * n + 35;
    StringsSize(strs, n);
    IntsSize(ints);
    BoolsSize(bools);
    var numbers := IntMembers(ints) + BoolMembers(bools);
    TextSizeConcat(IntMembers(ints), BoolMembers(bools));
    TextSizeConcat(StringMembers(strs), numbers);
    ObjectSize(StringMembers(strs) + numbers);
    AtMostFive(|strs|, |ints| + |bools|, b);
  }

  lemma AtMostFive(i: nat, j: nat, b: nat)
    requires i + j <= 5 && 35 <= b
    ensures i * b + j * 35 <= 5 * b
  {
    assert j * 35 <= j * b;
    assert i * b + j * b == (i + j) * b <= 5 * b;
  }

  lemma {:induction false} TextSizeConcat(a: seq<Member>, b: seq<Member>)
    ensures TextSize(a + b) == TextSize(a) + TextSize(b)
    decreases |a|
  {
    if a == [] {
      assert a + b == b;
    } else {
      TextSizeConcat(a[1..], b);
      assert (a + b)[1..] == a[1..] + b;
    }
  }

  lemma StringsSize(strs: seq<Field>, n: nat)
    requires forall i :: 0 <= i < |strs| ==> SmallField(strs[i], n)
    ensures TextSize(StringMembers(strs)) <= |strs| * (2 * n + 35)
  {
    var members := StringMembers(strs);
    forall i | 0 <= i < |members| ensures 2 * |members[i].key| + |members[i].text| + 4 <= 2 * n + 35 {
      LiteralSize(strs[i].value);
    }
    MembersSize(members, 2 * n + 35);
  }

  lemma IntsSize(ints: seq<IntField>)
    requires forall i :: 0 <= i < |ints| ==> SmallInt(ints[i])
    ensures TextSize(IntMembers(ints)) <= |ints| * 35
  {
    var members := IntMembers(ints);
    forall i | 0 <= i < |members| ensures 2 * |members[i].key| + |members[i].text| + 4 <= 35 {
      Int32Size(ints[i].value);
    }
    MembersSize(members, 35);
  }

  lemma BoolsSize(bools: seq<BoolField>)
    requires forall i :: 0 <= i < |bools| ==> |bools[i].key| <= 10
    ensures TextSize(BoolMembers(bools)) <= |bools| * 35
  {
    MembersSize(BoolMembers(bools), 35);
  }

  lemma ResponseWithin(mtype: string, id: string, strs: seq<Field>, ints: seq<IntField>, bools: seq<BoolField>, n: nat)
    requires |strs| + |ints| + |bools| <= 5 && |mtype| <= 20 && |id| <= n
    requires forall i :: 0 <= i < |strs| ==> SmallField(strs[i], n)
    requires forall i :: 0 <= i < |ints| ==> SmallInt(ints[i])
    requires forall i :: 0 <= i < |bools| ==> |bools[i].key| <= 10
    ensures 2 <= |Response(mtype, id, strs, ints, bools)| <= 12 * n + 300
  {
    DataWithin(strs, ints, bools, n);
    LiteralSize(mtype);
    LiteralSize(id);
    var t, r := Member("type", Literal(mtype)), Member("request_id", Literal(id));
    var d := Member("data", DataObject(strs, ints, bools));
    ThreeSize(t, r, d);
    ObjectSize([t, r, d]);
  }

  // What a failed or finished parse leaves is no longer than what was parsed.
  lemma ExtractedSize(src: string, key: string)
    ensures ExtractString(src, key).Some? ==> |ExtractString(src, key).value| <= |src|
  {
    match ValueStart(src, key)
    case None =>
    case Some(p) =>
      if p < |src| && src[p] == '"' {
        match CloseQuote(src, p + 1, p + 1)
        case None =>
        case Some(q) => UnescapeSize(src[p + 1..q]);
      }
  }

  lemma ParsedSize(raw: string)
    ensures |Parse(raw).msg.requestId| <= |raw|
    ensures Parse(raw).Bad? ==> |Parse(raw).err| <= 40
  {
    hide ExtractString, ExtractObject;
    ExtractedSize(raw, "request_id");
  }

  predicate SendableSize(payload: string) { 1 <= |payload| <= 1_000_000 }

  lemma ErrorFits(id: string, code: int, message: string)
    requires |id| <= MAX_BODY_LEN && |message| <= MAX_BODY_LEN && 0 <= code < 10_000
    ensures SendableSize(ErrorPayload(id, code, message))
  {
    ResponseWithin("error", id, [Field("message", message)], [IntField("code", code)], [], MAX_BODY_LEN);
  }

  lemma RefusalFits(id: string, code: int, message: string)
    requires |id| <= MAX_BODY_LEN && |message| <= MAX_BODY_LEN && 0 <= code < 10_000
    ensures SendableSize(LoginRefusal(id, code, message))
  {
    ResponseWithin("login_resp", id, [Field("message", message)], [IntField("code", code)],
                   [BoolField("success", false)], MAX_BODY_LEN);
  }

  lemma SuccessFits(id: string, user: User)
    requires |id| <= MAX_BODY_LEN && SmallUser(user)
    ensures SendableSize(LoginSuccess(id, user))
  {
    ResponseWithin("login_resp", id, [Field("message", "login success"), Field("username", user.username)],
                   [IntField("code", 0), IntField("user_id", user.id)], [BoolField("success", true)], MAX_BODY_LEN);
  }

  lemma SystemFits(message: string)
    requires |message| <= MAX_BODY_LEN
    ensures SendableSize(SystemPayload(message))
  {
    ResponseWithin("system", "", [Field("message", message)], [IntField("code", 2001)], [], MAX_BODY_LEN);
  }

  // A user as the table holds it: 32 characters of utf8mb4, an INT id.
  predicate SmallUser(user: User) { |user.username| <= 128 && -0x8000_0000 <= user.id < 0x8000_0000 }

  predicate ReactionFits(r: Reaction) {
    match r
    case Reply(payload) => SendableSize(payload)
    case LogIn(_, reply, notice) => SendableSize(reply) && SendableSize(notice)
    case Broadcast(payload) => SendableSize(payload)
  }

  lemma LoginFits(msg: ClientMessage, stored: Option<User>)
    requires |msg.requestId| <= MAX_BODY_LEN && (stored.Some? ==> SmallUser(stored.value))
    ensures ReactionFits(ReactToLogin(msg, stored))
  {
    hide LoginRefusal, LoginSuccess, SystemPayload, SendableSize, ValidateLogin;
    FaultSize(msg.data);
    var bad := ValidateLogin(msg.data);
    if bad.Some? { RefusalFits(msg.requestId, 3004, bad.value); }
    RefusalFits(msg.requestId, 1001, "invalid username or password");
    RefusalFits(msg.requestId, 1002, "user already online");
    if stored.Some? {
      SuccessFits(msg.requestId, stored.value);
      SystemFits(stored.value.username + " joined the chat");
    }
  }

  lemma FaultSize(data: map<string, string>)
    ensures ValidateLogin(data).Some? ==> |ValidateLogin(data).value| <= 40
    ensures ValidateChat(data).Some? ==> |ValidateChat(data).value| <= 40
    ensures ValidateChat(data).None? ==> "text" in data && 1 <= |data["text"]| <= MAX_TEXT
  {
  }

  lemma ChatFits(msg: ClientMessage, loggedIn: bool, userId: int, username: string)
    requires |msg.requestId| <= MAX_BODY_LEN && |username| <= 128 && -0x8000_0000 <= userId < 0x8000_0000
    ensures ReactionFits(ReactToChat(msg, loggedIn, userId, username))
  {
    hide ErrorPayload, ChatPayload, SendableSize, ValidateChat;
    FaultSize(msg.data);
    ErrorFits(msg.requestId, 3002, "user not logged in");
    var bad := ValidateChat(msg.data);
    if bad.Some? {
      ErrorFits(msg.requestId, 3004, bad.value);
    } else {
      BroadcastFits(username, userId, msg.data["text"]);
    }
  }

  lemma BroadcastFits(username: string, userId: int, text: string)
    requires 1 <= |text| <= MAX_TEXT && |username| <= 128 && -0x8000_0000 <= userId < 0x8000_0000
    ensures SendableSize(ChatPayload(username, userId, text))
  {
    AcceptedText(text);
    ChatPayloadFits(username, userId, text);
  }

  // Every payload the server answers a frame with, error or not, has from 1 to a
  // million bytes, so its frame's length never wraps and the client reads it.
  lemma ReactionSendable(raw: string, loggedIn: bool, userId: int, username: string, stored: Option<User>)
    requires |raw| <= MAX_BODY_LEN && SmallUser(User(userId, username, "", false))
    requires stored.Some? ==> SmallUser(stored.value)
    ensures ReactionFits(React(Parse(raw), loggedIn, userId, username, stored))
  {
    hide Parse, ReactToLogin, ReactToChat, ErrorPayload, SendableSize;
    ParsedSize(raw);
    match Parse(raw)
    case Bad(msg, err) =>
      ErrorFits(msg.requestId, 3003, err);
      ErrorFits(msg.requestId, 3004, err);
    case Ok(msg) =>
      LoginFits(msg, stored);
      ChatFits(msg, loggedIn, userId, username);
  }
}
