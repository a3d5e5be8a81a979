// The connection pool and its move-only handles, as objects. Every method is one
// critical section; what a method leaves in the pool is stated by the functions
// of Lending, the vocabulary of the step system in ConnectionPoolModel.
module ConnectionPools {
  import opened Sequences
  import opened CondVars
  import opened Lending
  import Model = ConnectionPoolModel

  // What the database is asked by connections it knows, and how it answers pings.
  datatype Call = Pinged(conn: DbConnection, answered: bool) | Reconnected(conn: DbConnection)

  // The database server; it remembers how each attempt to connect ended, and every
  // later call.
  class Database {
    ghost var attempts: seq<bool>
    ghost var calls: seq<Call>

    constructor ()
      ensures attempts == [] && calls == []
    {
      attempts, calls := [], [];
    }
  }

  // A database connection. What its operations do to the flag is up to the
  // database.
  class DbConnection {
    var connected: bool

    constructor () { connected := false; }

    method Connect(db: Database) returns (ok: bool)
      modifies this, db`attempts
      ensures db.attempts == old(db.attempts) + [ok]
    {
      ok := *;
      connected := *;
      db.attempts := db.attempts + [ok];
    }

    method Ping(db: Database) returns (ok: bool)
      modifies this, db`calls
      ensures db.calls == old(db.calls) + [Pinged(this, ok)]
    {
      ok := *;
      connected := *;
      db.calls := db.calls + [Pinged(this, ok)];
    }

    method Reconnect(db: Database)
      modifies this, db`calls
      ensures db.calls == old(db.calls) + [Reconnected(this)]
    {
      connected := *;
      db.calls := db.calls + [Reconnected(this)];
    }
  }

  // One ping of each connection, in order, followed by one attempt to reconnect it
  // exactly if it did not answer.
  ghost function Trials(conns: seq<DbConnection>, answers: seq<bool>): seq<Call>
    requires |conns| == |answers|
  {
    if conns == [] then []
    else
      var n := |conns| - 1;
      Trials(conns[..n], answers[..n]) + [Pinged(conns[n], answers[n])] +
      (if answers[n] then [] else [Reconnected(conns[n])])
  }

  lemma NoneDead(conns: seq<DbConnection>)
    ensures AllDead(conns[..0])
  {
  }

  lemma NoTrials(conns: seq<DbConnection>)
    ensures Trials(conns[..0], []) == []
  {
  }

  lemma OneTrial(conns: seq<DbConnection>, answers: seq<bool>, c: DbConnection, answer: bool)
    requires |conns| == |answers|
    ensures Trials(conns + [c], answers + [answer]) ==
      Trials(conns, answers) + ([Pinged(c, answer)] + (if answer then [] else [Reconnected(c)]))
  {
    assert (conns + [c])[..|conns|] == conns && (answers + [answer])[..|answers|] == answers;
  }

  predicate AllDead(conns: seq<DbConnection>)
    reads conns
  {
    forall c :: c in conns ==> !c.connected
  }

  datatype Outcome = NotInitialized | ShuttingDown | Waiting | Lent(handle: PooledConnection)

  class ConnectionPool {
    const minConnections: nat
    const maxConnections: nat
    const db: Database
    var initialized: bool
    var shuttingDown: bool
    var all: seq<DbConnection>
    var idle: seq<DbConnection>
    var waiters: CondVar
    ghost var held: map<PooledConnection, DbConnection>
    ghost var dropped: set<DbConnection>

    ghost function View(): Pool<DbConnection, PooledConnection>
      reads this
    {
      Pool(minConnections, maxConnections, initialized, all, idle, held, dropped)
    }

    ghost function State(): Model.State<DbConnection, PooledConnection>
      reads this
    {
      Model.State(View(), waiters)
    }

    // The connections split exclusively, no sleeper is owed a connection, and the
    // record of handles is true.
    ghost predicate Valid()
      reads this, held.Keys
    {
      && Exclusive(View())
      && (!shuttingDown ==> Model.WaitersInv(State()))
      && forall h :: h in held ==> h.pool == this && h.conn == held[h]
    }

    constructor (min: nat, max: nat, db: Database)
      ensures Valid() && View() == Empty(min, max) && !shuttingDown && this.db == db
      ensures waiters == CondVar({}, {})
    {
      minConnections, maxConnections, this.db := min, max, db;
      initialized, shuttingDown := false, false;
      all, idle, waiters := [], [], CondVar({}, {});
      held, dropped := map[], {};
    }

    // init. made: the connections opened; the attempts tell that it stops at the
    // first failure.
    method Start() returns (ok: bool, ghost made: seq<DbConnection>)
      requires Valid()
      modifies this, db`attempts
      ensures Valid() && shuttingDown == old(shuttingDown) && waiters == old(waiters)
      ensures fresh(Members(made)) && NoDup(made) && |made| <= minConnections
      ensures View() == Init(old(View()), made)
      ensures all == old(all) + made && idle == old(idle) + made && held == old(held)
      ensures ok == initialized
      ensures ok <==> old(initialized) || (0 < minConnections <= maxConnections && |made| == minConnections)
      ensures old(initialized) ==> made == []
      ensures db.attempts == old(db.attempts) +
        if old(initialized) || BadSizes(old(View())) then [] else seq(|made|, _ => true) + (if ok then [] else [false])
    {
      made := [];
      if initialized { return true, []; }
      if minConnections == 0 || maxConnections == 0 || minConnections > maxConnections { return false, []; }
      ghost var p := View();
      for i := 0 to minConnections
        invariant |made| == i && fresh(Members(made)) && NoDup(made)
        invariant View() == p.(all := p.all + made, idle := p.idle + made)
        invariant Valid() && !initialized && shuttingDown == old(shuttingDown) && waiters == old(waiters)
        invariant db.attempts == old(db.attempts) + seq(i, _ => true)
      {
        var conn := new DbConnection();
        var connects := conn.Connect(db);
        if !connects { return false, made; }
        AddFresh(View(), conn);
        NoDupAppend(made, conn);
        assert (p.all + made) + [conn] == p.all + (made + [conn]);
        assert (p.idle + made) + [conn] == p.idle + (made + [conn]);
        all := all + [conn];
        idle := idle + [conn];
        assert seq(i + 1, _ => true) == seq(i, _ => true) + [true];
        assert Members(made + [conn]) == Members(made) + {conn};
        made := made + [conn];
      }
      initialized := true;
      return true, made;
    }

    // The part of acquire that tries the first idle connection.
    method TryFront() returns (handle: PooledConnection?, ghost answered: bool)
      requires Valid() && idle != []
      modifies this, db`calls, idle[0]
      ensures Valid() && shuttingDown == old(shuttingDown) && waiters == old(waiters)
      ensures handle != null ==>
        && fresh(handle) && handle.pool == this && handle.conn == old(idle)[0] && handle.conn.connected
        && View() == LendFront(old(View()), handle)
      ensures handle == null ==> !old(idle)[0].connected && View() == Discard(old(View()), 1)
      ensures idle == old(idle)[1..]
      ensures db.calls == old(db.calls) +
        ([Pinged(old(idle)[0], answered)] + (if answered then [] else [Reconnected(old(idle)[0])]))
    {
      var conn := idle[0];
      var ok := conn.Ping(db);
      answered := ok;
      if !ok { conn.Reconnect(db); }
      if conn.connected {
        handle := new PooledConnection(conn, this);
        LendFrontKeeps(View(), handle);
        held := held[handle := conn];
      } else {
        handle := null;
        DiscardKeeps(View(), 1);
        assert Members(idle[..1]) == {conn};
        dropped := dropped + {conn};
      }
      idle := idle[1..];
    }

    // The part of acquire that opens a new connection.
    method TryGrow() returns (handle: PooledConnection?)
      requires Valid()
      modifies this, db`attempts
      ensures Valid() && shuttingDown == old(shuttingDown) && waiters == old(waiters)
      ensures handle != null ==>
        && fresh(handle) && handle.pool == this && handle.conn != null && fresh(handle.conn)
        && |old(all)| < maxConnections && View() == LendNew(old(View()), handle, handle.conn)
      ensures handle == null ==> View() == old(View())
      ensures db.attempts == old(db.attempts) + if |old(all)| < maxConnections then [handle != null] else []
    {
      handle := null;
      if |all| < maxConnections {
        var conn := new DbConnection();
        var ok := conn.Connect(db);
        if ok {
          handle := new PooledConnection(conn, this);
          LendNewKeeps(View(), handle, conn);
          all := all + [conn];
          held := held[handle := conn];
        }
      }
    }

    // The part of acquire that goes through the idle connections, until one is
    // alive; dead: those popped before it; answers: what the pings answered.
    method FromIdle() returns (handle: PooledConnection?, ghost dead: nat, ghost answers: seq<bool>)
      requires Valid()
      modifies this, db`calls, Members(idle)
      ensures Valid() && shuttingDown == old(shuttingDown) && waiters == old(waiters)
      ensures dead <= |old(idle)| && AllDead(old(idle)[..dead])
      ensures handle == null ==> dead == |old(idle)| && View() == Discard(old(View()), dead)
      ensures handle != null ==>
        && fresh(handle) && handle.pool == this && dead < |old(idle)|
        && handle.conn == old(idle)[dead] && handle.conn.connected
        && View() == LendFront(Discard(old(View()), dead), handle)
      ensures |answers| == (if handle == null then dead else dead + 1)
      ensures db.calls == old(db.calls) + Trials(old(idle)[..|answers|], answers)
    {
      handle, dead, answers := null, 0, [];
      ghost var p, calls := View(), db.calls;
      NoTrials(p.idle);
      hide Valid, View, Discard, LendFront, Trials, AllDead;
      assert AllDead(p.idle[..0]) by { NoneDead(p.idle); }
      while |idle| > 0
        invariant Valid() && shuttingDown == old(shuttingDown) && waiters == old(waiters) && handle == null
        invariant idle == p.idle[|p.idle| - |idle|..] && dead == |answers| == |p.idle| - |idle|
        invariant View() == Discard(p, dead) && db.calls == calls + Trials(p.idle[..dead], answers)
        invariant AllDead(p.idle[..dead])
        decreases |idle|
      {
        handle, answers := TryNext(p, calls, answers);
        if handle != null { return; }
        dead := dead + 1;
      }
    }

    // One turn of that loop; before it answers are the pings of those popped from p.
    method TryNext(ghost p: Pool<DbConnection, PooledConnection>, ghost calls: seq<Call>, ghost answers: seq<bool>)
      returns (handle: PooledConnection?, ghost answers': seq<bool>)
      requires Valid() && |answers| < |p.idle| && NoDup(p.idle) && idle == p.idle[|answers|..]
      requires View() == Discard(p, |answers|) && db.calls == calls + Trials(p.idle[..|answers|], answers)
      requires AllDead(p.idle[..|answers|])
      modifies this, db`calls, idle[0]
      ensures Valid() && shuttingDown == old(shuttingDown) && waiters == old(waiters)
      ensures |answers'| == |answers| + 1 && idle == p.idle[|answers'|..]
      ensures db.calls == calls + Trials(p.idle[..|answers'|], answers')
      ensures AllDead(p.idle[..|answers|])
      ensures handle == null ==> AllDead(p.idle[..|answers'|]) && View() == Discard(p, |answers'|)
      ensures handle != null ==>
        && fresh(handle) && handle.pool == this && handle.conn == p.idle[|answers|] && handle.conn.connected
        && View() == LendFront(Discard(p, |answers|), handle)
    {
      ghost var n := |answers|;
      hide Valid, View, LendFront, Trials;
      assert idle[0] == p.idle[n] && p.idle[..n + 1] == p.idle[..n] + [p.idle[n]];
      ghost var answered;
      handle, answered := TryFront();
      OneTrial(p.idle[..n], answers, p.idle[n], answered);
      DiscardOne(p, n);
      answers' := answers + [answered];
    }

    // acquire by thread t, from one acquisition of the mutex to the return or to
    // cv_.wait. dead: the idle connections it pops that stay disconnected.
    method Acquire(t: Thread)
      returns (r: Outcome, ghost dead: nat, ghost grown: Option<DbConnection>, ghost answers: seq<bool>)
      requires Valid() && t !in waiters.parked
      modifies this, db, Members(idle)
      ensures Valid() && shuttingDown == old(shuttingDown)
      ensures waiters == if r == Waiting then old(waiters).Park(t) else old(waiters).Resume(t)
      ensures dead <= |old(idle)| && AllDead(old(idle)[..dead])
      ensures |answers| == (if r.Lent? && grown.None? then dead + 1 else dead) <= |old(idle)|
      ensures idle == old(idle)[|answers|..] && all == old(all) + (if grown.Some? then [grown.value] else [])
      ensures held == if !r.Lent? then old(held)
                      else old(held)[r.handle := if grown.Some? then grown.value else old(idle)[dead]]
      ensures db.calls == old(db.calls) + Trials(old(idle)[..|answers|], answers)
      ensures r == NotInitialized <==> !old(initialized)
      ensures r == ShuttingDown <==> old(initialized) && shuttingDown
      ensures r == NotInitialized || r == ShuttingDown ==> View() == old(View())
      ensures r == Waiting ==> dead == |old(idle)| && View() == Discard(old(View()), dead)
      ensures db.attempts == old(db.attempts) +
        if (r == Waiting && |old(all)| < maxConnections) || grown.Some? then [grown.Some?] else []
      ensures r.Lent? ==>
        && fresh(r.handle) && r.handle.pool == this && r.handle.conn != null
        && (grown.None? ==> r.handle.conn.connected)
        && (grown.Some? ==> fresh(grown.value) && dead == |old(idle)| && |old(all)| < maxConnections)
        && View() == Model.AcquireEffect(old(View()), r.handle, dead, grown)
        && var out := Model.AcquireOutcome(old(View()), dead, grown); out.Lent? && out.conn == r.handle.conn
    {
      hide Exclusive, Model.WaitersInv, Trials;
      dead, grown, answers := 0, None, [];
      NoTrials(idle);
      Leaves(State(), t);
      if !initialized {
        waiters := waiters.Resume(t);
        return NotInitialized, 0, None, [];
      }
      if shuttingDown {
        waiters := waiters.Resume(t);
        return ShuttingDown, 0, None, [];
      }
      ghost var before := State();
      var handle;
      handle, dead, answers := FromIdle();
      if handle != null {
        Serves(before, t, handle, dead, None);
        waiters := waiters.Resume(t);
        return Lent(handle), dead, None, answers;
      }
      handle := TryGrow();
      if handle == null {
        Parks(before, t);
        waiters := waiters.Park(t);
        return Waiting, dead, None, answers;
      }
      Serves(before, t, handle, dead, Some(handle.conn));
      waiters := waiters.Resume(t);
      r, grown := Lent(handle), Some(handle.conn);
    }

    // releaseConnection, called by the handle that holds conn as it lets go.
    method ReleaseConnection(ghost handle: PooledConnection, conn: DbConnection)
      requires Valid() && handle in held && held[handle] == conn
      modifies this
      ensures Valid() && shuttingDown == old(shuttingDown)
      ensures var given := conn.connected && !shuttingDown;
        View() == GiveBack(old(View()), handle, given) && Model.Notified(given, old(waiters), waiters)
      ensures idle == old(idle) + (if conn.connected && !shuttingDown then [conn] else [])
      ensures held == old(held) - {handle} && all == old(all)
    {
      ghost var before, given := State(), conn.connected && !shuttingDown;
      GiveBackKeeps(View(), handle, given);
      held := held - {handle};
      if shuttingDown || !conn.connected {
        dropped := dropped + {conn};
      } else {
        idle := idle + [conn];
        waiters := Notify(waiters);
      }
      if !shuttingDown { Model.NotifiedKeeps(before, given, State()); }
    }
  }

  // A thread that gets no further than the two errors owes nobody.
  lemma Leaves(s: Model.State<DbConnection, PooledConnection>, t: Thread)
    requires t !in s.waiters.parked
    ensures Model.WaitersInv(s) && !s.pool.initialized ==> Model.WaitersInv(s.(waiters := s.waiters.Resume(t)))
  {
  }

  // A thread that takes a connection leaves enough for the sleepers' signals.
  lemma Serves(s: Model.State<DbConnection, PooledConnection>, t: Thread, h: PooledConnection, dead: nat,
               grown: Option<DbConnection>)
    requires Model.WaitersInv(s) && s.pool.initialized && t !in s.waiters.parked && dead <= |s.pool.idle|
    requires Model.AcquireOutcome(s.pool, dead, grown).Lent?
    ensures Model.WaitersInv(Model.State(Model.AcquireEffect(s.pool, h, dead, grown), s.waiters.Resume(t)))
  {
    Model.AcquireServes(s, t, h, dead, grown);
  }

  lemma Parks(s: Model.State<DbConnection, PooledConnection>, t: Thread)
    requires Model.WaitersInv(s) && s.pool.initialized && t !in s.waiters.parked
    ensures Model.WaitersInv(Model.State(Discard(s.pool, |s.pool.idle|), s.waiters.Park(t)))
  {
  }

  lemma AddFresh(p: Pool<DbConnection, PooledConnection>, c: DbConnection)
    requires Exclusive(p) && c !in p.all
    ensures Exclusive(p.(all := p.all + [c], idle := p.idle + [c]))
  {
    assert Members([c]) == {c};
    NoDupConcat(p.all, [c]);
    NoDupConcat(p.idle, [c]);
  }

  lemma DiscardOne<C, H>(p: Pool<C, H>, dead: nat)
    requires dead < |p.idle|
    ensures Discard(Discard(p, dead), 1) == Discard(p, dead + 1)
  {
    assert p.idle[dead..][..1] == [p.idle[dead]];
    assert p.idle[..dead + 1] == p.idle[..dead] + [p.idle[dead]];
    assert Members(p.idle[..dead + 1]) == Members(p.idle[..dead]) + Members([p.idle[dead]]);
  }

  // A handle: empty, or holding one connection of one pool. Every method keeps
  // the pools exclusive, and leaves an emptied handle unable to release again.
  class PooledConnection {
    var conn: DbConnection?
    var pool: ConnectionPool?

    // The handle and its pool agree; an empty handle belongs to none.
    ghost predicate Owns()
      reads this, pool
    {
      (conn == null <==> pool == null) &&
      (pool != null ==> this in pool.held && pool.held[this] == conn)
    }

    constructor (conn: DbConnection?, pool: ConnectionPool?)
      ensures this.conn == conn && this.pool == pool
    {
      this.conn, this.pool := conn, pool;
    }

    // The move constructor.
    constructor Move(other: PooledConnection)
      requires other.Owns() && (other.pool != null ==> other.pool.Valid())
      modifies other, if other.pool == null then {} else {other.pool}
      ensures conn == old(other.conn) && pool == old(other.pool) && Owns()
      ensures other.conn == null && other.pool == null
      ensures pool != null ==>
        && pool.Valid() && pool.shuttingDown == old(other.pool.shuttingDown) && pool.waiters == old(other.pool.waiters)
        && pool.View() == Lending.Move(old(other.pool.View()), this, other)
    {
      conn, pool := other.conn, other.pool;
      new;
      Transfer(other);
    }

    // What both moves do once this handle's fields are copied: the record of who
    // holds the connection follows, and other is emptied.
    method Transfer(other: PooledConnection)
      requires this != other && other.Owns() && conn == other.conn && pool == other.pool
      requires pool != null ==> pool.Valid() && this !in pool.held
      modifies other, if pool == null then {} else {pool}
      ensures conn == old(conn) && pool == old(pool) && Owns()
      ensures other.conn == null && other.pool == null
      ensures pool != null ==>
        && pool.Valid() && pool.shuttingDown == old(pool.shuttingDown) && pool.waiters == old(pool.waiters)
        && pool.View() == Lending.Move(old(pool.View()), this, other)
    {
      if pool != null {
        MoveKeeps(pool.View(), this, other);
        pool.held := (pool.held - {other})[this := conn];
      }
      other.conn := null;
      other.pool := null;
    }

    // An empty handle takes over another's connection; left, the pool it gave its
    // own back to before, is not affected.
    method TakeFrom(other: PooledConnection, ghost left: ConnectionPool?)
      requires this != other && other.Owns() && conn == null && pool == null
      requires other.pool != null ==> other.pool.Valid() && this !in other.pool.held
      requires left != null ==> left != other.pool && left.Valid() && this !in left.held
      modifies this, other, if other.pool == null then {} else {other.pool}
      ensures conn == old(other.conn) && pool == old(other.pool) && Owns()
      ensures other.conn == null && other.pool == null
      ensures pool != null ==>
        && pool.Valid() && pool.shuttingDown == old(other.pool.shuttingDown) && pool.waiters == old(other.pool.waiters)
        && pool.View() == Lending.Move(old(other.pool.View()), this, other)
      ensures left != null ==> left.Valid()
    {
      assert left != null ==> other !in left.held;
      conn := other.conn;
      pool := other.pool;
      Transfer(other);
    }

    // release; also the destructor.
    method Release()
      requires Owns() && (pool != null ==> pool.Valid())
      modifies this, if pool == null then {} else {pool}
      ensures conn == null && pool == null
      ensures old(pool) != null ==>
        && old(pool).Valid() && old(pool).shuttingDown == old(pool.shuttingDown)
        && old(pool).View() == GiveBack(old(pool.View()), this, old(conn.connected && !pool.shuttingDown))
        && old(pool).held == old(pool.held) - {this}
        && Model.Notified(old(conn.connected && !pool.shuttingDown), old(pool.waiters), old(pool).waiters)
    {
      if conn != null && pool != null {
        pool.ReleaseConnection(this, conn);
        conn := null;
        pool := null;
      }
    }

    // The move assignment. The two handles may come from different pools.
    method Assign(other: PooledConnection)
      requires Owns() && other.Owns()
      requires (pool != null ==> pool.Valid()) && (other.pool != null ==> other.pool.Valid())
      modifies this, other
      modifies if pool == null then {} else {pool}, if other.pool == null then {} else {other.pool}
      ensures Owns() && other.Owns()
      ensures conn == old(other.conn) && pool == old(other.pool)
      ensures this != other ==> other.conn == null && other.pool == null
      ensures old(pool) != null && (old(pool) == old(other.pool) || this == other) ==>
        && pool.Valid()
        && pool.View() == Lending.Assign(old(pool.View()), this, other, old(conn.connected && !pool.shuttingDown))
      ensures old(pool) != null && old(pool) != old(other.pool) ==>
        && old(pool).Valid()
        && old(pool).View() == GiveBack(old(pool.View()), this, old(conn.connected && !pool.shuttingDown))
      ensures old(other.pool) != null && old(pool) != old(other.pool) ==>
        pool.Valid() && pool.View() == Lending.Move(old(other.pool.View()), this, other)
      ensures old(pool) != null ==>
        Model.Notified(this != other && old(conn.connected && !pool.shuttingDown), old(pool.waiters), old(pool).waiters)
    {
      if this != other {
        assert other.pool != null && other.pool != pool ==> this !in other.pool.held;
        hide ConnectionPool.Valid, GiveBack, Lending.Move, Model.Notified;
        ghost var left := if pool == other.pool then null else pool;
        Release();
        TakeFrom(other, left);
      }
    }
  }
}
