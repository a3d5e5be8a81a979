// Any number of threads sharing one connection pool. A step is one critical
// section of the pool, one operation on a handle, or one spurious wakeup.
module ConnectionPoolModel {
  import opened Sequences
  import opened CondVars
  import opened Lending

  datatype State<C(==), H(==)> = State(pool: Pool<C, H>, waiters: CondVar)

  datatype Outcome<C> = NotInitialized | Waiting | Lent(conn: C)

  datatype Action<C, H> =
    | Start(made: seq<C>)
    | Acquire(t: Thread, h: H, dead: nat, grown: Option<C>)
    | Release(h: H, alive: bool)
    | MoveTo(to: H, from: H)
    | AssignTo(to: H, from: H, alive: bool)
    | Spurious(t: Thread)

  // What acquire returns, from one acquisition of the mutex to the next wait or
  // the return. dead idle connections come first; grown is what connect yields
  // if it is called.
  function AcquireOutcome<C, H>(p: Pool<C, H>, dead: nat, grown: Option<C>): Outcome<C>
    requires dead <= |p.idle|
  {
    if !p.initialized then NotInitialized
    else if dead < |p.idle| then Lent(p.idle[dead])
    else if |p.all| < p.max && grown.Some? then Lent(grown.value)
    else Waiting
  }

  function AcquireEffect<C, H>(p: Pool<C, H>, h: H, dead: nat, grown: Option<C>): Pool<C, H>
    requires dead <= |p.idle|
  {
    if !p.initialized then p
    else if dead < |p.idle| then LendFront(Discard(p, dead), h)
    else if |p.all| < p.max && grown.Some? then LendNew(Discard(p, dead), h, grown.value)
    else Discard(p, dead)
  }

  // Connections are created fresh, and a handle variable receives a connection
  // only while it is empty.
  ghost predicate Enabled<C, H>(s: State<C, H>, a: Action<C, H>) {
    match a
    case Start(made) =>
      && NoDup(made) && |made| <= s.pool.min && Members(made) !! Members(s.pool.all)
    case Acquire(t, h, dead, grown) =>
      && t !in s.waiters.parked && h !in s.pool.held && dead <= |s.pool.idle|
      && (grown.Some? ==> grown.value !in s.pool.all)
    case Release(h, _) => true
    case MoveTo(to, _) => to !in s.pool.held
    case AssignTo(to, from, _) => true
    case Spurious(t) => t in s.waiters.parked
  }

  function AfterAcquire<C>(w: CondVar, t: Thread, out: Outcome<C>): CondVar {
    if out.Waiting? then w.Park(t) else w.Resume(t)
  }

  // A connection that comes back alive notifies one waiter.
  ghost predicate Notified(given: bool, w: CondVar, w': CondVar) {
    if given then NotifyOne(w, w') else w' == w
  }

  ghost predicate Step<C, H>(s: State<C, H>, a: Action<C, H>, s': State<C, H>) {
    && Enabled(s, a)
    && match a
       case Start(made) => s' == State(Init(s.pool, made), s.waiters)
       case Acquire(t, h, dead, grown) =>
         s' == State(AcquireEffect(s.pool, h, dead, grown),
                     AfterAcquire(s.waiters, t, AcquireOutcome(s.pool, dead, grown)))
       case Release(h, alive) =>
         && s'.pool == GiveBack(s.pool, h, alive)
         && Notified(alive && h in s.pool.held, s.waiters, s'.waiters)
       case MoveTo(to, from) => s' == State(Move(s.pool, to, from), s.waiters)
       case AssignTo(to, from, alive) =>
         && s'.pool == Assign(s.pool, to, from, alive)
         && Notified(alive && to != from && to in s.pool.held, s.waiters, s'.waiters)
       case Spurious(t) => s' == State(s.pool, s.waiters.Wake(t))
  }

  // --------------------------------------------------------------- invariant

  // A parked acquirer is owed nothing: every idle connection is matched by an
  // acquirer already on its way.
  ghost predicate NoneOwed<C, H>(s: State<C, H>) {
    s.waiters.parked != {} ==> |s.pool.idle| <= |s.waiters.woken|
  }

  lemma AcquireKeeps<C, H>(p: Pool<C, H>, h: H, dead: nat, grown: Option<C>)
    requires Exclusive(p) && h !in p.held && dead <= |p.idle|
    requires grown.Some? ==> grown.value !in p.all
    ensures Exclusive(AcquireEffect(p, h, dead, grown))
  {
    DiscardKeeps(p, dead);
    if !p.initialized {
    } else if dead < |p.idle| {
      LendFrontKeeps(Discard(p, dead), h);
    } else if |p.all| < p.max && grown.Some? {
      LendNewKeeps(Discard(p, dead), h, grown.value);
    }
  }

  lemma AcquireServes<C, H>(s: State<C, H>, t: Thread, h: H, dead: nat, grown: Option<C>)
    requires NoneOwed(s) && s.waiters.parked !! s.waiters.woken
    requires t !in s.waiters.parked && dead <= |s.pool.idle|
    requires s.waiters.parked + s.waiters.woken != {} ==> s.pool.initialized
    ensures var s' := State(AcquireEffect(s.pool, h, dead, grown),
                            AfterAcquire(s.waiters, t, AcquireOutcome(s.pool, dead, grown)));
      NoneOwed(s') && s'.waiters.parked !! s'.waiters.woken
  {
    WokenShrinks(s.waiters, t);
    if s.pool.initialized { AcquirePops(s.pool, h, dead, grown); }
    hide AcquireEffect;
  }

  lemma WokenShrinks(w: CondVar, t: Thread)
    ensures |w.woken - {t}| >= |w.woken| - 1
  {
    assert w.woken <= (w.woken - {t}) + {t};
    SubsetSize(w.woken, (w.woken - {t}) + {t});
  }

  // An acquire that gets a connection leaves at least one idle fewer, or none; one
  // that waits leaves none.
  lemma AcquirePops<C, H>(p: Pool<C, H>, h: H, dead: nat, grown: Option<C>)
    requires p.initialized && dead <= |p.idle|
    ensures var p' := AcquireEffect(p, h, dead, grown);
      && (|p'.idle| == 0 || |p'.idle| <= |p.idle| - 1)
      && (AcquireOutcome(p, dead, grown).Waiting? ==> |p'.idle| == 0)
  {
  }

  lemma NotifiedKeeps<C, H>(s: State<C, H>, given: bool, s': State<C, H>)
    requires NoneOwed(s) && s.waiters.parked !! s.waiters.woken
    requires Notified(given, s.waiters, s'.waiters)
    requires |s'.pool.idle| == |s.pool.idle| + (if given then 1 else 0)
    ensures NoneOwed(s') && s'.waiters.parked !! s'.waiters.woken
    ensures s'.waiters.parked + s'.waiters.woken == s.waiters.parked + s.waiters.woken
  {
    if given { WokenGrows(s.waiters, s'.waiters); }
  }

  lemma PoolKeeps<C, H>(s: State<C, H>, a: Action<C, H>, s': State<C, H>)
    requires Exclusive(s.pool) && Step(s, a, s')
    ensures Exclusive(s'.pool)
  {
    match a
    case Start(made) => InitKeeps(s.pool, made);
    case Acquire(_, h, dead, grown) => AcquireKeeps(s.pool, h, dead, grown);
    case Release(h, alive) => GiveBackKeeps(s.pool, h, alive);
    case MoveTo(to, from) => MoveKeeps(s.pool, to, from);
    case AssignTo(to, from, alive) => AssignKeeps(s.pool, to, from, alive);
    case Spurious(t) =>
  }

  ghost predicate WaitersInv<C, H>(s: State<C, H>) {
    && NoneOwed(s)
    && s.waiters.parked !! s.waiters.woken
    && (s.waiters.parked + s.waiters.woken != {} ==> s.pool.initialized)
  }

  lemma WaitersKeep<C, H>(s: State<C, H>, a: Action<C, H>, s': State<C, H>)
    requires WaitersInv(s) && Step(s, a, s')
    ensures WaitersInv(s')
  {
    match a
    case Start(made) =>
    case Acquire(t, h, dead, grown) => AcquireServes(s, t, h, dead, grown);
    case Release(h, alive) => NotifiedKeeps(s, alive && h in s.pool.held, s');
    case MoveTo(_, _) =>
    case AssignTo(to, from, alive) => NotifiedKeeps(s, alive && to != from && to in s.pool.held, s');
    case Spurious(t) => WakeKeeps(s.waiters, t);
  }

  ghost predicate Inv<C, H>(s: State<C, H>) {
    Exclusive(s.pool) && WaitersInv(s)
  }

  // --------------------------------------------------------------------- runs

  ghost predicate IsRun<C(!new), H(!new)>(states: seq<State<C, H>>, actions: seq<Action<C, H>>) {
    && |states| == |actions| + 1
    && states[0] == State(Empty(states[0].pool.min, states[0].pool.max), CondVar({}, {}))
    && forall i :: 0 <= i < |actions| ==> Step(states[i], actions[i], states[i + 1])
  }

  lemma {:induction false} RunKeeps<C(!new), H(!new)>(states: seq<State<C, H>>, actions: seq<Action<C, H>>, i: nat)
    requires IsRun(states, actions) && i < |states|
    ensures Inv(states[i])
  {
    if i > 0 {
      RunKeeps(states, actions, i - 1);
      PoolKeeps(states[i - 1], actions[i - 1], states[i]);
      WaitersKeep(states[i - 1], actions[i - 1], states[i]);
    }
  }

  // ------------------------------------------------------------ the size bound

  // There is room for whatever an init would open: always so on a new pool.
  predicate RoomForInit<C, H>(p: Pool<C, H>) {
    p.initialized || BadSizes(p) || |p.all| + p.min <= p.max
  }

  // Each init among the first i actions found room; one init on a new pool does.
  ghost predicate RoomyInits<C, H>(states: seq<State<C, H>>, actions: seq<Action<C, H>>, i: nat)
    requires i <= |actions| < |states|
  {
    forall j :: 0 <= j < i && actions[j].Start? ==> RoomForInit(states[j].pool)
  }

  // The pool never exceeds max_connections as long as each init finds room.
  lemma {:induction false} SizeBound<C(!new), H(!new)>(states: seq<State<C, H>>, actions: seq<Action<C, H>>, i: nat)
    requires IsRun(states, actions) && i < |states|
    requires RoomyInits(states, actions, i)
    ensures |states[i].pool.all| <= states[i].pool.max
  {
    if i > 0 {
      SizeBound(states, actions, i - 1);
      BoundStep(states[i - 1], actions[i - 1], states[i]);
    }
  }

  lemma BoundStep<C, H>(s: State<C, H>, a: Action<C, H>, s': State<C, H>)
    requires Step(s, a, s') && |s.pool.all| <= s.pool.max && (a.Start? ==> RoomForInit(s.pool))
    ensures |s'.pool.all| <= s'.pool.max
  {
  }

  // Exclusive lending: in every reachable state the pool's connections split into
  // idle ones, ones held by exactly one handle, and dropped ones, however often
  // init is called; they never outnumber max_connections if each init found room.
  lemma ExclusiveLending<C(!new), H(!new)>(
      states: seq<State<C, H>>, actions: seq<Action<C, H>>, i: nat, c: C)
    requires IsRun(states, actions) && i < |states|
    ensures var p := states[i].pool;
      && (RoomyInits(states, actions, i) ==> |p.all| <= p.max)
      && multiset(p.all)[c] <= 1
      && (c in p.all ==>
            multiset(p.idle)[c] + |set h | h in p.held && p.held[h] == c| + (if c in p.dropped then 1 else 0) == 1)
      && (c !in p.all ==> c !in p.idle && c !in p.held.Values && c !in p.dropped)
  {
    if RoomyInits(states, actions, i) { SizeBound(states, actions, i); }
    RunKeeps(states, actions, i);
    var p := states[i].pool;
    MultiplicityOne(p.all, c);
    MultiplicityOne(p.idle, c);
    assert c in p.all <==> c in Members(p.all);
    assert c in p.idle <==> c in Members(p.idle);
    HoldersOf(p.held, c);
  }

  lemma HoldersOf<C, H>(held: map<H, C>, c: C)
    requires forall h, k :: h in held && k in held && h != k ==> held[h] != held[k]
    ensures |set h | h in held && held[h] == c| == if c in held.Values then 1 else 0
  {
    var holders := set h | h in held && held[h] == c;
    if c in held.Values {
      var k :| k in held && held[k] == c;
      assert holders == {k};
    } else {
      assert forall h :: h in held ==> held[h] in held.Values;
      assert holders == {};
    }
  }

  lemma DropsStay<C, H>(s: State<C, H>, a: Action<C, H>, s': State<C, H>)
    requires Step(s, a, s')
    ensures s.pool.dropped <= s'.pool.dropped && s'.pool.max == s.pool.max
    ensures |s.pool.all| <= |s'.pool.all|
    ensures s.pool.initialized ==> s'.pool.initialized
    ensures s.pool.initialized && |s.pool.all| >= s.pool.max ==> s'.pool.all == s.pool.all
  {
  }

  lemma {:induction false} DroppedGrow<C(!new), H(!new)>(
      states: seq<State<C, H>>, actions: seq<Action<C, H>>, i: nat, j: nat)
    requires IsRun(states, actions) && i <= j < |states|
    ensures states[i].pool.dropped <= states[j].pool.dropped
    ensures states[i].pool.initialized ==> states[j].pool.initialized
    ensures states[j].pool.max == states[i].pool.max
    ensures states[i].pool.initialized && |states[i].pool.all| >= states[i].pool.max ==>
              states[j].pool.all == states[i].pool.all
    decreases j
  {
    if i < j {
      DroppedGrow(states, actions, i, j - 1);
      LastDrops(states, actions, j - 1);
    }
  }

  lemma LastDrops<C(!new), H(!new)>(states: seq<State<C, H>>, actions: seq<Action<C, H>>, j: nat)
    requires IsRun(states, actions) && j < |actions|
    ensures var s, s' := states[j], states[j + 1];
      && s.pool.dropped <= s'.pool.dropped && s'.pool.max == s.pool.max
      && (s.pool.initialized ==> s'.pool.initialized)
      && (s.pool.initialized && |s.pool.all| >= s.pool.max ==> s'.pool.all == s.pool.all)
  {
    DropsStay(states[j], actions[j], states[j + 1]);
  }

  // A dropped connection is never idle or held again, and each one shrinks for
  // good what the pool can lend.
  lemma DroppedForGood<C(!new), H(!new)>(
      states: seq<State<C, H>>, actions: seq<Action<C, H>>, i: nat, j: nat, c: C)
    requires IsRun(states, actions) && i <= j < |states|
    ensures c in states[i].pool.dropped ==> c !in states[j].pool.idle && c !in states[j].pool.held.Values
    ensures |states[j].pool.idle| + |states[j].pool.held| <= |states[j].pool.all| - |states[i].pool.dropped|
    ensures RoomyInits(states, actions, j) ==>
      |states[j].pool.idle| + |states[j].pool.held| <= states[i].pool.max - |states[i].pool.dropped|
  {
    if RoomyInits(states, actions, j) { SizeBound(states, actions, j); }
    RunKeeps(states, actions, j);
    DroppedGrow(states, actions, i, j);
    var p := states[j].pool;
    Accounting(p);
    SubsetSize(states[i].pool.dropped, p.dropped);
    assert c in p.idle ==> c in Members(p.idle);
  }

  lemma SubsetSize<C>(xs: set<C>, ys: set<C>)
    requires xs <= ys
    ensures |xs| <= |ys|
  {
    assert ys == xs + (ys - xs);
  }

  // No lost wakeup: while an acquirer sleeps unsignalled, every idle connection is
  // matched by a signalled one, however many dead ones each discards.
  lemma NoLostWakeup<C(!new), H(!new)>(
      states: seq<State<C, H>>, actions: seq<Action<C, H>>, i: nat)
    requires IsRun(states, actions) && i < |states|
    requires states[i].waiters.parked != {}
    ensures |states[i].pool.idle| <= |states[i].waiters.woken|
  {
    RunKeeps(states, actions, i);
  }

  // Once the pool owns all it may and every one has been dropped, no acquire ever
  // succeeds again: each one waits.
  lemma ExhaustedForever<C(!new), H(!new)>(
      states: seq<State<C, H>>, actions: seq<Action<C, H>>, i: nat, j: nat)
    requires IsRun(states, actions) && i <= j < |actions| && actions[j].Acquire?
    requires states[i].pool.initialized
    requires states[i].pool.max <= |states[i].pool.all| == |states[i].pool.dropped|
    ensures var a, p := actions[j], states[j].pool;
      a.dead <= |p.idle| && AcquireOutcome(p, a.dead, a.grown) == Waiting
  {
    var a, p := actions[j], states[j].pool;
    assert Step(states[j], a, states[j + 1]);
    RunKeeps(states, actions, j);
    DroppedGrow(states, actions, i, j);
    Accounting(p);
    SubsetSize(states[i].pool.dropped, p.dropped);
  }

  // ----------------------------------------------------------- a second init

  // In every reachable state within the bound, a further init keeps it whatever
  // connect does, exactly when it finds room; spare are connections it could open.
  lemma InitKeepsBound<C(!new), H(!new)>(
      states: seq<State<C, H>>, actions: seq<Action<C, H>>, i: nat, spare: seq<C>)
    requires IsRun(states, actions) && i < |states| && |states[i].pool.all| <= states[i].pool.max
    requires NoDup(spare) && |spare| == states[i].pool.min && Members(spare) !! Members(states[i].pool.all)
    ensures (forall made: seq<C> :: Enabled(states[i], Start(made)) ==>
               |Init(states[i].pool, made).all| <= states[i].pool.max)
       <==> RoomForInit(states[i].pool)
  {
    var p := states[i].pool;
    if !RoomForInit(p) {
      assert Enabled(states[i], Start(spare)) && |Init(p, spare).all| > p.max;
    }
  }

  // A failed init followed by a second one does exceed the bound.
  lemma SecondInitExceeds()
    ensures exists states: seq<State<nat, nat>>, actions: seq<Action<nat, nat>> ::
      IsRun(states, actions) && states[|actions|].pool.initialized && |states[|actions|].pool.all| == 3
      && states[|actions|].pool.max == 2
  {
    var p0: Pool<nat, nat> := Empty(2, 2);
    var a0: Action<nat, nat>, a1: Action<nat, nat> := Start([7]), Start([8, 9]);
    var s0 := State(p0, CondVar({}, {}));
    var s1 := State(Init(p0, [7]), s0.waiters);
    var s2 := State(Init(s1.pool, [8, 9]), s0.waiters);
    assert Step(s0, a0, s1);
    assert Step(s1, a1, s2);
    assert IsRun([s0, s1, s2], [a0, a1]);
  }

  // -------------------------------------------------------------- stranding

  // An acquirer sleeps, nobody is signalled, and no handle is out whose release
  // could signal.
  predicate Stranded<C, H>(s: State<C, H>) {
    s.waiters.parked != {} && s.waiters.woken == {} && s.pool.held == map[]
  }

  // When sleeping acquirers are stranded: exactly when every connection the pool
  // owns has been dropped.
  lemma StrandedIffAllDropped<C(!new), H(!new)>(
      states: seq<State<C, H>>, actions: seq<Action<C, H>>, i: nat)
    requires IsRun(states, actions) && i < |states|
    requires states[i].waiters.parked != {} && states[i].waiters.woken == {}
    ensures Stranded(states[i]) <==> |states[i].pool.dropped| == |states[i].pool.all|
  {
    RunKeeps(states, actions, i);
    Accounting(states[i].pool);
  }

  // Which steps strand them: an acquire that finds no live connection and opens
  // none while no handle is out and nobody else is awake; or the last handle out
  // giving back a dead connection, which notifies nobody.
  predicate Strands<C, H>(s: State<C, H>, a: Action<C, H>)
    requires a.Acquire? ==> a.dead <= |s.pool.idle|
  {
    match a
    case Acquire(t, _, dead, grown) =>
      AcquireOutcome(s.pool, dead, grown).Waiting? && s.pool.held == map[] && s.waiters.woken <= {t}
    case Release(h, alive) =>
      !alive && s.pool.held.Keys == {h} && s.waiters.parked != {} && s.waiters.woken == {}
    case AssignTo(to, from, alive) =>
      !alive && to != from && s.pool.held.Keys == {to} && s.waiters.parked != {} && s.waiters.woken == {}
    case _ => false
  }

  lemma StrandingStep<C, H>(s: State<C, H>, a: Action<C, H>, s': State<C, H>)
    requires WaitersInv(s) && Step(s, a, s') && !Stranded(s)
    ensures Stranded(s') <==> Strands(s, a)
  {
    match a
    case Release(h, alive) => ReleaseStrands(s, h, alive, s');
    case AssignTo(to, from, alive) => AssignStrands(s, to, from, alive, s');
    case MoveTo(to, from) => MoveHolds(s.pool, to, from);
    case Acquire(t, h, dead, grown) => AcquireHolds(s.pool, h, dead, grown);
    case _ =>
  }

  // A move leaves somebody holding exactly if somebody held.
  lemma MoveHolds<C, H>(p: Pool<C, H>, to: H, from: H)
    requires to !in p.held
    ensures Move(p, to, from).held == map[] <==> p.held == map[]
  {
    if from in p.held { assert to in Move(p, to, from).held; }
  }

  lemma AcquireHolds<C, H>(p: Pool<C, H>, h: H, dead: nat, grown: Option<C>)
    requires dead <= |p.idle|
    ensures AcquireOutcome(p, dead, grown).Lent? ==> AcquireEffect(p, h, dead, grown).held != map[]
    ensures !AcquireOutcome(p, dead, grown).Lent? ==> AcquireEffect(p, h, dead, grown).held == p.held
  {
    if AcquireOutcome(p, dead, grown).Lent? { assert h in AcquireEffect(p, h, dead, grown).held; }
  }

  lemma ReleaseStrands<C, H>(s: State<C, H>, h: H, alive: bool, s': State<C, H>)
    requires WaitersInv(s) && Step(s, Release(h, alive), s') && !Stranded(s)
    ensures Stranded(s') <==> Strands(s, Release(h, alive))
  {
    if h in s.pool.held {
      if alive { WokenGrows(s.waiters, s'.waiters); }
      assert s.pool.held.Keys == s'.pool.held.Keys + {h};
    }
  }

  lemma AssignStrands<C, H>(s: State<C, H>, to: H, from: H, alive: bool, s': State<C, H>)
    requires WaitersInv(s) && Step(s, AssignTo(to, from, alive), s') && !Stranded(s)
    ensures Stranded(s') <==> Strands(s, AssignTo(to, from, alive))
  {
    if to != from {
      var mid := State(GiveBack(s.pool, to, alive), s'.waiters);
      MoveHolds(mid.pool, to, from);
      ReleaseStrands(s, to, alive, mid);
    }
  }

  // Once stranded, they stay so until a newcomer opens a connection or a sleeper
  // wakes by itself; when the pool owns all it may, only the latter is left.
  lemma StrandedStays<C, H>(s: State<C, H>, a: Action<C, H>, s': State<C, H>)
    requires WaitersInv(s) && Exclusive(s.pool) && Step(s, a, s') && Stranded(s)
    ensures Stranded(s') <==>
      !(a.Spurious? || (a.Acquire? && |s.pool.all| < s.pool.max && a.grown.Some?))
  {
    assert s.pool.idle == [];
  }

  // A failed connect can strand an acquirer with the pool below its maximum.
  lemma FailedGrowthStrands()
    ensures exists states: seq<State<nat, nat>>, actions: seq<Action<nat, nat>> ::
      IsRun(states, actions) && Stranded(states[|actions|])
      && |states[|actions|].pool.all| < states[|actions|].pool.max
  {
    var p0: Pool<nat, nat> := Empty(1, 2);
    var s0 := State(p0, CondVar({}, {}));
    var a0: Action<nat, nat> := Start([7]);
    var s1 := State(Init(p0, [7]), s0.waiters);
    var a1: Action<nat, nat> := Acquire(0, 0, 1, None);
    var s2 := State(AcquireEffect(s1.pool, 0, 1, None), CondVar({0}, {}));
    assert Step(s0, a0, s1);
    assert Step(s1, a1, s2);
    assert IsRun([s0, s1, s2], [a0, a1]);
  }

  // So can the release of a dead connection, although no connect ever failed.
  lemma DeadReleaseStrands()
    ensures exists states: seq<State<nat, nat>>, actions: seq<Action<nat, nat>> ::
      IsRun(states, actions) && Stranded(states[|actions|])
      && forall i :: 0 <= i < |actions| && actions[i].Acquire? ==> |states[i].pool.all| == states[i].pool.max
  {
    var s0, s1 := Lone(false, [], [], map[], {}, {}), Lone(true, [7], [7], map[], {}, {});
    var s2, s3 := Lone(true, [7], [], map[0 := 7], {}, {}), Lone(true, [7], [], map[0 := 7], {}, {1});
    var s4 := Lone(true, [7], [], map[], {7}, {1});
    var a0: Action<nat, nat>, a1: Action<nat, nat> := Start([7]), Acquire(0, 0, 0, None);
    var a2: Action<nat, nat>, a3: Action<nat, nat> := Acquire(1, 1, 0, None), Release(0, false);
    LoneSteps();
    assert s0.pool == Empty(1, 1);
    hide Step, Empty;
    FourSteps(s0, a0, s1, a1, s2, a2, s3, a3, s4);
  }

  lemma LoneSteps()
    ensures Step(Lone(false, [], [], map[], {}, {}), Start([7]), Lone(true, [7], [7], map[], {}, {}))
    ensures Step(Lone(true, [7], [7], map[], {}, {}), Acquire(0, 0, 0, None), Lone(true, [7], [], map[0 := 7], {}, {}))
    ensures Step(Lone(true, [7], [], map[0 := 7], {}, {}), Acquire(1, 1, 0, None),
                 Lone(true, [7], [], map[0 := 7], {}, {1}))
    ensures Step(Lone(true, [7], [], map[0 := 7], {}, {1}), Release(0, false), Lone(true, [7], [], map[], {7}, {1}))
  {
  }

  function Lone(initialized: bool, all: seq<nat>, idle: seq<nat>, held: map<nat, nat>, dropped: set<nat>,
                parked: set<Thread>): State<nat, nat> {
    State(Pool(1, 1, initialized, all, idle, held, dropped), CondVar(parked, {}))
  }

  lemma FourSteps(s0: State<nat, nat>, a0: Action<nat, nat>, s1: State<nat, nat>, a1: Action<nat, nat>,
                  s2: State<nat, nat>, a2: Action<nat, nat>, s3: State<nat, nat>, a3: Action<nat, nat>,
                  s4: State<nat, nat>)
    requires s0 == State(Empty(s0.pool.min, s0.pool.max), CondVar({}, {}))
    requires Step(s0, a0, s1) && Step(s1, a1, s2) && Step(s2, a2, s3) && Step(s3, a3, s4)
    ensures IsRun([s0, s1, s2, s3, s4], [a0, a1, a2, a3])
  {
    hide Step;
    var states, actions := [s0, s1, s2, s3, s4], [a0, a1, a2, a3];
    assert states[0] == s0 && states[1] == s1 && states[2] == s2 && states[3] == s3 && states[4] == s4;
    assert actions[0] == a0 && actions[1] == a1 && actions[2] == a2 && actions[3] == a3;
    forall i | 0 <= i < |actions| ensures Step(states[i], actions[i], states[i + 1]) {
      assert i == 0 || i == 1 || i == 2 || i == 3;
    }
  }
}
