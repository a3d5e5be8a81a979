// What a reader of JSON finds in each payload the server sends.
module Answers {
  import opened Sequences
  import opened Fields
  import opened Messages
  import opened RoundTrips
  import opened Json
  import opened ChatRules

  // A message as the client sees it: its type, its request id and its data.
  function Message(mtype: string, requestId: string, data: seq<(string, Value)>): Value {
    Obj([("type", Str(mtype)), ("request_id", Str(requestId)), ("data", Obj(data))])
  }

  // The words the payloads are made of.
  lemma WordsClean()
    ensures Clean("message") && Clean("username") && Clean("text") && Clean("code") && Clean("user_id")
    ensures Clean("success") && Clean("error") && Clean("login_resp") && Clean("system") && Clean("chat_broadcast")
  {
    WordClean("message");
    WordClean("username");
    WordClean("text");
    WordClean("code");
    WordClean("user_id");
    WordClean("success");
    WordClean("error");
    WordClean("login_resp");
    WordClean("system");
    WordClean("chat_broadcast");
  }

  lemma OneString(k: string, v: string, ints: seq<IntField>, bools: seq<BoolField>)
    requires Clean(k) && (forall i :: 0 <= i < |ints| ==> Clean(ints[i].key))
    requires forall i :: 0 <= i < |bools| ==> Clean(bools[i].key)
    ensures AllClean([Field(k, v)], ints, bools) <==> Clean(v)
  {
    hide Clean;
    assert [Field(k, v)][0] == Field(k, v);
  }

  lemma TwoStrings(k1: string, v1: string, k2: string, v2: string, ints: seq<IntField>, bools: seq<BoolField>)
    requires Clean(k1) && Clean(k2) && (forall i :: 0 <= i < |ints| ==> Clean(ints[i].key))
    requires forall i :: 0 <= i < |bools| ==> Clean(bools[i].key)
    ensures AllClean([Field(k1, v1), Field(k2, v2)], ints, bools) <==> Clean(v1) && Clean(v2)
  {
    hide Clean;
    var strs := [Field(k1, v1), Field(k2, v2)];
    assert strs[0] == Field(k1, v1) && strs[1] == Field(k2, v2);
  }

  // An error names its request, its code and its reason.
  lemma ErrorRead(requestId: string, code: int, message: string)
    ensures Read(ErrorPayload(requestId, code, message)) ==
      if Clean(requestId) && Clean(message)
      then Some(Message("error", requestId, [("message", Str(message)), ("code", Num(code))]))
      else None
  {
    WordsClean();
    var ints := [IntField("code", code)];
    OneString("message", message, ints, []);
    assert Wanted([Field("message", message)], ints, []) == [("message", Str(message)), ("code", Num(code))];
    hide Clean, AllClean, Wanted, Response, Read;
    ResponseIsJson("error", requestId, [Field("message", message)], ints, []);
  }

  // A refused login says so, with the code and the reason.
  lemma RefusalRead(requestId: string, code: int, message: string)
    ensures Read(LoginRefusal(requestId, code, message)) ==
      if Clean(requestId) && Clean(message)
      then Some(Message("login_resp", requestId,
                        [("message", Str(message)), ("code", Num(code)), ("success", Bool(false))]))
      else None
  {
    WordsClean();
    var ints, bools := [IntField("code", code)], [BoolField("success", false)];
    OneString("message", message, ints, bools);
    assert Wanted([Field("message", message)], ints, bools)
        == [("message", Str(message)), ("code", Num(code)), ("success", Bool(false))];
    hide Clean, AllClean, Wanted, Response, Read;
    ResponseIsJson("login_resp", requestId, [Field("message", message)], ints, bools);
  }

  // A successful login says so, with code 0 and the user's own name and id.
  lemma SuccessRead(requestId: string, user: User)
    ensures Read(LoginSuccess(requestId, user)) ==
      if Clean(requestId) && Clean(user.username)
      then Some(Message("login_resp", requestId,
                        [("message", Str("login success")), ("username", Str(user.username)),
                         ("code", Num(0)), ("user_id", Num(user.id)), ("success", Bool(true))]))
      else None
  {
    WordsClean();
    var strs := [Field("message", "login success"), Field("username", user.username)];
    var ints, bools := [IntField("code", 0), IntField("user_id", user.id)], [BoolField("success", true)];
    assert Clean("login success");
    TwoStrings("message", "login success", "username", user.username, ints, bools);
    assert Wanted(strs, ints, bools)
        == [("message", Str("login success")), ("username", Str(user.username)),
            ("code", Num(0)), ("user_id", Num(user.id)), ("success", Bool(true))];
    hide Clean, AllClean, Wanted, Response, Read;
    ResponseIsJson("login_resp", requestId, strs, ints, bools);
  }

  // A notice carries code 2001.
  lemma NoticeRead(message: string)
    ensures Read(SystemPayload(message)) ==
      if Clean(message) then Some(Message("system", "", [("message", Str(message)), ("code", Num(2001))])) else None
  {
    WordsClean();
    var ints := [IntField("code", 2001)];
    OneString("message", message, ints, []);
    assert Wanted([Field("message", message)], ints, []) == [("message", Str(message)), ("code", Num(2001))];
    assert Clean("");
    hide Clean, AllClean, Wanted, Response, Read;
    ResponseIsJson("system", "", [Field("message", message)], ints, []);
  }

  // A chat line carries its sender's name and id.
  lemma BroadcastRead(username: string, userId: int, text: string)
    ensures Read(ChatPayload(username, userId, text)) ==
      if Clean(username) && Clean(text)
      then Some(Message("chat_broadcast", "",
                        [("username", Str(username)), ("text", Str(text)), ("user_id", Num(userId))]))
      else None
  {
    WordsClean();
    var ints := [IntField("user_id", userId)];
    TwoStrings("username", username, "text", text, ints, []);
    assert Wanted([Field("username", username), Field("text", text)], ints, [])
        == [("username", Str(username)), ("text", Str(text)), ("user_id", Num(userId))];
    assert Clean("");
    hide Clean, AllClean, Wanted, Response, Read;
    ResponseIsJson("chat_broadcast", "", [Field("username", username), Field("text", text)], ints, []);
  }

  // --------------------------------------------- what a login comes to, read back

  lemma DigitsClean(n: nat)
    ensures Clean(Digits(n))
    decreases n
  {
    if n >= 10 { DigitsClean(n / 10); }
  }

  lemma FieldTextsClean()
    ensures Clean("username cannot be empty") && Clean("password cannot be empty")
    ensures Clean("username too long") && Clean("password too long")
  {
  }

  lemma AccountTextsClean()
    ensures Clean("invalid username or password") && Clean("user already online")
  {
  }

  lemma JoinedTextClean()
    ensures Clean(" joined the chat")
  {
  }

  lemma RefusalsClean(why: string)
    requires why in REFUSALS
    ensures Clean(why)
  {
    FieldTextsClean();
    AccountTextsClean();
    hide Clean;
    var i :| 0 <= i < |REFUSALS| && REFUSALS[i] == why;
    assert i == 0 || i == 1 || i == 2 || i == 3 || i == 4 || i == 5;
  }

  lemma JoinedClean(name: string)
    requires Clean(name)
    ensures Clean(name + " joined the chat")
  {
    JoinedTextClean();
    CleanConcat(name, " joined the chat");
  }

  lemma CleanConcat(s: string, t: string)
    requires Clean(s) && Clean(t)
    ensures Clean(s + t)
  {
  }

  ghost predicate ReadsRefusal(payload: string, requestId: string, code: int) {
    exists why :: why in REFUSALS && Read(payload) ==
      Some(Message("login_resp", requestId, [("message", Str(why)), ("code", Num(code)), ("success", Bool(false))]))
  }

  ghost predicate ReadsWelcome(payload: string, requestId: string, user: User) {
    Read(payload) ==
      Some(Message("login_resp", requestId,
                   [("message", Str("login success")), ("username", Str(user.username)),
                    ("code", Num(0)), ("user_id", Num(user.id)), ("success", Bool(true))]))
  }

  lemma RefusedRead(r: Reaction, requestId: string, code: int)
    requires Clean(requestId) && Refuses(r, requestId, code)
    ensures r.Reply? && ReadsRefusal(r.payload, requestId, code)
  {
    hide REFUSALS, Clean, Read, LoginRefusal;
    var why :| why in REFUSALS && r == Reply(LoginRefusal(requestId, code, why));
    RefusalsClean(why);
    RefusalRead(requestId, code, why);
  }

  lemma WelcomedRead(r: Reaction, requestId: string, user: User)
    requires Clean(requestId) && Clean(user.username) && Welcomes(r, requestId, user)
    ensures r.LogIn? && r.user == user && ReadsWelcome(r.reply, requestId, user)
    ensures Read(r.notice) ==
      Some(Message("system", "", [("message", Str(user.username + " joined the chat")), ("code", Num(2001))]))
  {
    JoinedClean(user.username);
    hide Clean, Read, LoginSuccess, SystemPayload, ReadData;
    SuccessRead(requestId, user);
    NoticeRead(user.username + " joined the chat");
  }

  // From the client's login request to the answer it reads: success with code 0 and
  // the stored name and id, exactly for fields that fit, a known user and password
  // and a user not yet online, and then a notice to the others; otherwise a refusal
  // with the code of its reason.
  lemma LoginAnswered(id: nat, timestamp: int, user: string, password: string,
                      loggedIn: bool, userId: int, username: string, stored: Option<User>)
    requires stored.Some? ==> Clean(stored.value.username)
    ensures
      var raw := LoginRequest(Digits(id), timestamp, user, password);
      var r := React(Parse(raw), loggedIn, userId, username, stored);
      var known := stored.Some? && stored.value.password == password;
      if Fits(user, password) && known && !stored.value.online then
        && r.LogIn? && r.user == stored.value && ReadsWelcome(r.reply, Digits(id), stored.value)
        && Read(r.notice) == Some(Message("system", "", [
             ("message", Str(stored.value.username + " joined the chat")), ("code", Num(2001))]))
      else
        r.Reply? &&
        ReadsRefusal(r.payload, Digits(id), if !Fits(user, password) then 3004 else if !known then 1001 else 1002)
  {
    hide Clean, Read, Parse, React, LoginRequest, Welcomes, Refuses, ReadsWelcome, ReadsRefusal, Fits, Digits;
    LoginDecided(id, timestamp, user, password, loggedIn, userId, username, stored);
    DigitsClean(id);
    var r := React(Parse(LoginRequest(Digits(id), timestamp, user, password)), loggedIn, userId, username, stored);
    var known := stored.Some? && stored.value.password == password;
    if Fits(user, password) && known && !stored.value.online {
      WelcomedRead(r, Digits(id), stored.value);
    } else {
      RefusedRead(r, Digits(id), if !Fits(user, password) then 3004 else if !known then 1001 else 1002);
    }
  }
}
