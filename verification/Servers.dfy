// The server's connections as objects: closing, broadcasting, and the read,
// write and message handlers, each run to its end.
module Servers {
  import opened Sequences
  import opened Framing
  import Reading
  import opened Connections
  import Messages
  import opened ChatRules

  // What closing a logged-in connection tells the others.
  function LeftNotice(username: string): string { SystemPayload(username + " left the chat") }

  // The connection's output gained exactly one frame, the payload's, with write
  // interest armed; or, when it is not addressed, nothing.
  twostate predicate Received(c: Connection, payload: string, addressed: bool)
    reads c
  {
    && c.writeBuffer == old(c.writeBuffer) + (if addressed then Frame(payload) else "")
    && c.armed == (old(c.armed) || addressed)
  }

  // If sent, every one of the connections that was open and logged in gained the
  // frame; no other output changed.
  twostate predicate ReceivedByUsers(targets: set<Connection>, payload: string, sent: bool)
    reads targets
  {
    forall c :: c in targets ==> Received(c, payload, sent && old(c.connected && c.loggedIn))
  }

  // After an event on conn, the others' outputs hold a notice more exactly if it
  // closed a logged-in connection.
  twostate predicate SawEvent(conn: Connection, others: set<Connection>)
    reads conn, others
  {
    ReceivedByUsers(others - {conn}, LeftNotice(conn.username), old(conn.connected && conn.loggedIn) && !conn.connected)
  }

  // What the reaction to a message of conn did: an answer goes to conn alone; a
  // login is answered, then announced to every user, the new one included; a chat
  // text goes to every user.
  twostate predicate Reacted(conn: Connection, all: set<Connection>, r: Reaction)
    reads conn, all
  {
    match r
    case Reply(payload) =>
      && unchanged(conn`userId, conn`username, conn`loggedIn)
      && Received(conn, payload, true)
      && ReceivedByUsers(all - {conn}, payload, false)
    case LogIn(user, reply, notice) =>
      && conn.loggedIn && conn.userId == user.id && conn.username == user.username && conn.armed
      && conn.writeBuffer == old(conn.writeBuffer) + Frame(reply) + (if conn in all then Frame(notice) else "")
      && ReceivedByUsers(all - {conn}, notice, true)
    case Broadcast(payload) =>
      && unchanged(conn`userId, conn`username, conn`loggedIn)
      && ReceivedByUsers(all, payload, true)
      && (conn !in all ==> Received(conn, payload, false))
  }

  lemma HasCredentials(data: map<string, string>)
    requires ValidateLogin(data).None?
    ensures "username" in data && "password" in data
  {
  }

  lemma HasText(data: map<string, string>)
    requires ValidateChat(data).None?
    ensures "text" in data
  {
  }

  lemma KeyOf<K, V>(m: map<K, V>, v: V) returns (k: K)
    requires v in m.Values
    ensures k in m && m[k] == v
  {
    k :| k in m && m[k] == v;
  }

  class Server {
    var connections: map<int, Connection>

    ghost predicate Valid()
      reads this, connections.Values
    {
      forall fd :: fd in connections ==> connections[fd].fd == fd
    }

    constructor ()
      ensures Valid() && connections == map[]
    {
      connections := map[];
    }

    method SnapshotConnections() returns (snapshot: seq<Connection>)
      requires Valid()
      ensures NoDup(snapshot) && (set c | c in snapshot) == connections.Values
    {
      snapshot := [];
      var fds := connections.Keys;
      while |fds| > 0
        invariant fds <= connections.Keys && NoDup(snapshot)
        invariant forall c :: c in snapshot ==> c.fd in connections && c.fd !in fds && connections[c.fd] == c
        invariant forall fd :: fd in connections.Keys - fds ==> connections[fd] in snapshot
        decreases |fds|
      {
        var fd := Pick(fds);
        NoDupAppend(snapshot, connections[fd]);
        snapshot := snapshot + [connections[fd]];
        fds := fds - {fd};
      }
      forall c | c in connections.Values ensures c in snapshot {
        var fd := KeyOf(connections, c);
        assert fd in connections.Keys - fds;
      }
    }

    method RemoveConnection(fd: int)
      requires Valid()
      modifies this
      ensures Valid() && connections == old(connections) - {fd}
    {
      connections := connections - {fd};
    }

    // The loop of broadcastChat and broadcastSystem.
    method Broadcast(payload: string)
      requires Valid()
      modifies connections.Values`writeBuffer, connections.Values`armed
      ensures Valid() && ReceivedByUsers(connections.Values, payload, true)
      ensures forall c :: c in connections.Values ==>
        c.writeBuffer == old(c.writeBuffer) + if old(c.connected && c.loggedIn) then Frame(payload) else ""
    {
      var snapshot := SnapshotConnections();
      for i := 0 to |snapshot|
        invariant forall c :: c in connections.Values && c in snapshot[..i] ==>
                    Received(c, payload, old(c.connected && c.loggedIn))
        invariant forall c :: c in connections.Values && c !in snapshot[..i] ==> Received(c, payload, false)
      {
        assert snapshot[i] in connections.Values && snapshot[..i + 1] == snapshot[..i] + [snapshot[i]];
        if snapshot[i].connected && snapshot[i].loggedIn {
          snapshot[i].SendJson(payload);
        }
      }
      assert snapshot[..|snapshot|] == snapshot;
    }

    // onConnectionClosed; conn is marked closed already, so its own notice skips it.
    method OnConnectionClosed(conn: Connection)
      requires Valid() && !conn.connected
      modifies conn`loggedIn, connections.Values`writeBuffer, connections.Values`armed
      ensures Valid() && !conn.loggedIn
      ensures ReceivedByUsers(connections.Values, LeftNotice(conn.username), old(conn.loggedIn))
    {
      hide LeftNotice;
      if conn.loggedIn {
        Broadcast(LeftNotice(conn.username));
        conn.loggedIn := false;
      }
    }

    // closeAndCleanup. A connection that is already closed is left alone; one that
    // closes is out of every later snapshot, and is sent no notice of its own
    // departure (its write lock may be held by the caller).
    method CloseAndCleanup(conn: Connection)
      requires Valid()
      modifies this, conn`connected, conn`loggedIn, conn`fd, conn`armed
      modifies connections.Values`writeBuffer, connections.Values`armed
      ensures Valid() && !conn.connected && conn.writeBuffer == old(conn.writeBuffer)
      ensures !old(conn.connected) ==> unchanged(this) && unchanged(conn)
      ensures old(conn.connected) ==>
        && conn.fd == -1 && !conn.loggedIn && !conn.armed
        && connections == old(connections) - {old(conn.fd)} && conn !in connections.Values
      ensures SawEvent(conn, old(connections.Values))
    {
      hide LeftNotice;
      if !conn.connected { return; }
      conn.connected := false;
      conn.armed := false;
      OnConnectionClosed(conn);
      RemoveConnection(conn.fd);
      forall k | k in connections ensures connections[k] != conn {
        assert connections[k].fd == k;
      }
      conn.fd := -1;
    }

    // handleRead, for one readable event.
    method HandleRead(conn: Connection, script: seq<Reading.Recv>)
      requires Valid()
      modifies this, conn, connections.Values`writeBuffer, connections.Values`armed
      ensures Valid()
      ensures conn.View() == Reading.HandleRead(old(conn.View()), script)
      ensures conn.writeBuffer == old(conn.writeBuffer) && conn.username == old(conn.username)
      ensures conn.connected ==> unchanged(this) && conn.loggedIn == old(conn.loggedIn) && conn.armed == old(conn.armed)
      ensures SawEvent(conn, old(connections.Values))
      ensures old(conn.connected) ==> forall i: nat :: Reading.StopsAt(script, i) ==>
        (!conn.connected <==> (i < |script| && Reading.HangsUp(script[i])) ||
                              HasInvalidLength(old(conn.readBuffer) + Reading.AllData(script[..i])))
      ensures old(conn.connected && conn.loggedIn) && !conn.connected ==>
        && conn !in connections.Values
        && ReceivedByUsers(old(connections.Values) - {conn}, LeftNotice(conn.username), true)
    {
      hide LeftNotice;
      if !conn.connected { return; }
      var closing := conn.ReceiveAll(script);
      if closing || HasInvalidLength(conn.readBuffer) {
        CloseAndCleanup(conn);
        return;
      }
      conn.SubmitFrames();
    }

    // handleWrite, for one writable event; sent is what the socket took.
    method HandleWrite(conn: Connection, script: seq<Send>) returns (sent: string)
      requires Valid()
      modifies this, conn, connections.Values`writeBuffer, connections.Values`armed
      ensures Valid()
      ensures sent + conn.writeBuffer == old(conn.writeBuffer)
      ensures conn.submitted == old(conn.submitted) && conn.readBuffer == old(conn.readBuffer)
      ensures old(conn.connected) ==> var (taken, end) := Transmission(|old(conn.writeBuffer)|, script);
        |sent| == taken && conn.connected == (end != Broken)
      ensures old(conn.connected) ==> forall i: nat :: SendsUpTo(script, i) ==>
        && (conn.writeBuffer == "" <==> Total(script[..i]) >= |old(conn.writeBuffer)|)
        && (!conn.connected <==> conn.writeBuffer != "" && i < |script| && SendBreaks(script[i]))
      ensures conn.connected ==> unchanged(this) && conn.loggedIn == old(conn.loggedIn)
      ensures conn.connected ==> conn.armed == (old(conn.armed) && conn.writeBuffer != "")
      ensures SawEvent(conn, old(connections.Values))
    {
      hide LeftNotice;
      if !conn.connected { return ""; }
      var end;
      sent, end := conn.Transmit(script);
      match end
      case Blocked =>
      case Broken => CloseAndCleanup(conn);
      case Drained => conn.armed := false;
    }

    // An answer to conn alone.
    method Answer(conn: Connection, payload: string)
      requires Valid() && conn.connected
      modifies conn`writeBuffer, conn`armed
      ensures Valid() && Reacted(conn, connections.Values, Reply(payload))
      ensures conn.writeBuffer == old(conn.writeBuffer) + Frame(payload) && conn.armed
    {
      conn.SendJson(payload);
    }

    // The user is logged in, told so, and announced.
    method Welcome(conn: Connection, user: User, reply: string, notice: string)
      requires Valid() && conn.connected
      modifies conn`userId, conn`username, conn`loggedIn, conn`writeBuffer, conn`armed
      modifies connections.Values`writeBuffer, connections.Values`armed
      ensures Valid() && Reacted(conn, connections.Values, LogIn(user, reply, notice))
      ensures conn.loggedIn && conn.userId == user.id && conn.username == user.username
      ensures old(conn.writeBuffer) + Frame(reply) <= conn.writeBuffer
      ensures forall c :: c in connections.Values && c != conn ==>
        c.writeBuffer == old(c.writeBuffer) + if old(c.connected && c.loggedIn) then Frame(notice) else ""
    {
      conn.userId, conn.username := user.id, user.username;
      conn.loggedIn := true;
      conn.SendJson(reply);
      Broadcast(notice);
    }

    // A text to every user.
    method Relay(conn: Connection, payload: string)
      requires Valid()
      modifies connections.Values`writeBuffer, connections.Values`armed
      ensures Valid() && Reacted(conn, connections.Values, Reaction.Broadcast(payload))
      ensures forall c :: c in connections.Values ==>
        c.writeBuffer == old(c.writeBuffer) + if old(c.connected && c.loggedIn) then Frame(payload) else ""
    {
      Broadcast(payload);
    }

    // onMessage, for one frame of conn; stored is what the databases hold for the
    // username it asks for.
    method OnMessage(conn: Connection, raw: string, stored: Option<User>)
      requires Valid()
      modifies conn`userId, conn`username, conn`loggedIn, conn`writeBuffer, conn`armed
      modifies connections.Values`writeBuffer, connections.Values`armed
      ensures Valid()
      ensures !old(conn.connected) ==> unchanged(conn) && unchanged(connections.Values)
      ensures old(conn.connected) ==>
        Reacted(conn, connections.Values,
                React(Messages.Parse(raw), old(conn.loggedIn), old(conn.userId), old(conn.username), stored))
      ensures old(conn.connected) && Messages.Unsupported(raw) ==>
        Reacted(conn, connections.Values,
                Reply(ErrorPayload(Messages.RequestId(raw), 3003, "unsupported message type")))
    {
      if Messages.Unsupported(raw) {
        UnsupportedAnswered(raw, conn.loggedIn, conn.userId, conn.username, stored);
      }
      hide React, Messages.Parse, Messages.Unsupported, Messages.RequestId, Reacted;
      if !conn.connected { return; }
      Answered(conn, raw, stored);
    }

    // The same for an open connection.
    method Answered(conn: Connection, raw: string, stored: Option<User>)
      requires Valid() && conn.connected
      modifies conn`userId, conn`username, conn`loggedIn, conn`writeBuffer, conn`armed
      modifies connections.Values`writeBuffer, connections.Values`armed
      ensures Valid()
      ensures Reacted(conn, connections.Values,
                      React(Messages.Parse(raw), old(conn.loggedIn), old(conn.userId), old(conn.username), stored))
    {
      hide React, Messages.Parse, Messages.Unsupported, Messages.IsLogin, Messages.IsChat, Messages.DataField;
      var message := Messages.ParseClientMessage(raw);
      Dispatch(conn, message, stored);
    }

    // What parsing found decides who answers; it lets no third type through.
    method Dispatch(conn: Connection, message: Messages.Parsed, stored: Option<User>)
      requires Valid() && conn.connected
      modifies conn`userId, conn`username, conn`loggedIn, conn`writeBuffer, conn`armed
      modifies connections.Values`writeBuffer, connections.Values`armed
      ensures Valid()
      ensures Reacted(conn, connections.Values,
                      React(message, old(conn.loggedIn), old(conn.userId), old(conn.username), stored))
    {
      hide ReactToLogin, ReactToChat, ErrorPayload, Reacted;
      if message.Bad? {
        var code := if message.err == "unsupported message type" then 3003 else 3004;
        Answer(conn, ErrorPayload(message.msg.requestId, code, message.err));
        return;
      }
      if message.msg.mtype == "login_req" {
        OnLogin(conn, message.msg, stored);
        return;
      }
      OnChat(conn, message.msg);
    }

    // Its login_req branch.
    method OnLogin(conn: Connection, msg: Messages.ClientMessage, stored: Option<User>)
      requires Valid() && conn.connected
      modifies conn`userId, conn`username, conn`loggedIn, conn`writeBuffer, conn`armed
      modifies connections.Values`writeBuffer, connections.Values`armed
      ensures Valid() && Reacted(conn, connections.Values, ReactToLogin(msg, stored))
    {
      if ValidateLogin(msg.data).None? { HasCredentials(msg.data); }
      hide LoginRefusal, LoginSuccess, SystemPayload, ValidateLogin, Reacted;
      var bad := ValidateLogin(msg.data);
      if bad.Some? {
        Answer(conn, LoginRefusal(msg.requestId, 3004, bad.value));
        return;
      }
      if stored.None? {
        Answer(conn, LoginRefusal(msg.requestId, 1001, "invalid username or password"));
        return;
      }
      var user := stored.value;
      if user.password != msg.data["password"] {
        Answer(conn, LoginRefusal(msg.requestId, 1001, "invalid username or password"));
        return;
      }
      if user.online {
        Answer(conn, LoginRefusal(msg.requestId, 1002, "user already online"));
        return;
      }
      Welcome(conn, user, LoginSuccess(msg.requestId, user), SystemPayload(user.username + " joined the chat"));
    }

    // Its chat_req branch.
    method OnChat(conn: Connection, msg: Messages.ClientMessage)
      requires Valid() && conn.connected
      modifies conn`userId, conn`username, conn`loggedIn, conn`writeBuffer, conn`armed
      modifies connections.Values`writeBuffer, connections.Values`armed
      ensures Valid()
      ensures Reacted(conn, connections.Values,
                      ReactToChat(msg, old(conn.loggedIn), old(conn.userId), old(conn.username)))
    {
      if ValidateChat(msg.data).None? { HasText(msg.data); }
      hide ErrorPayload, ChatPayload, ValidateChat, Reacted;
      if !conn.loggedIn {
        Answer(conn, ErrorPayload(msg.requestId, 3002, "user not logged in"));
        return;
      }
      var bad := ValidateChat(msg.data);
      if bad.Some? {
        Answer(conn, ErrorPayload(msg.requestId, 3004, bad.value));
        return;
      }
      Relay(conn, ChatPayload(conn.username, conn.userId, msg.data["text"]));
    }
  }
}
