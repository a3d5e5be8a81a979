// What a connection pool holds, as a value: the connections it has created, the
// idle ones, and which handle holds which. The MySQL and the Redis pool are the
// same algorithm; C stands for their connections and H for their handles.
module Lending {
  import opened Sequences

  datatype Pool<C(==), H(==)> = Pool(
    min: nat, max: nat, initialized: bool,
    all: seq<C>,       // all_connections_, in creation order
    idle: seq<C>,      // idle_connections_
    held: map<H, C>,   // the handles that hold a connection
    dropped: set<C>)   // history: owned by the pool, but neither idle nor held

  function Empty<C(==), H(==)>(min: nat, max: nat): Pool<C, H> {
    Pool(min, max, false, [], [], map[], {})
  }

  function Members<C(==)>(xs: seq<C>): set<C> { set x | x in xs }

  predicate BadSizes<C, H>(p: Pool<C, H>) { p.min == 0 || p.max == 0 || p.min > p.max }

  // init: made are the connections it managed to open before the first failure.
  function Init<C, H>(p: Pool<C, H>, made: seq<C>): Pool<C, H> {
    if p.initialized || BadSizes(p) then p
    else p.(all := p.all + made, idle := p.idle + made, initialized := |made| == p.min)
  }

  // acquire pops idle connections that neither answer nor reconnect.
  function Discard<C, H>(p: Pool<C, H>, dead: nat): Pool<C, H>
    requires dead <= |p.idle|
  {
    p.(idle := p.idle[dead..], dropped := p.dropped + Members(p.idle[..dead]))
  }

  function LendFront<C, H>(p: Pool<C, H>, h: H): Pool<C, H>
    requires p.idle != []
  {
    p.(idle := p.idle[1..], held := p.held[h := p.idle[0]])
  }

  function LendNew<C, H>(p: Pool<C, H>, h: H, c: C): Pool<C, H> {
    p.(all := p.all + [c], held := p.held[h := c])
  }

  // A handle gives its connection back; a dead one is dropped.
  function GiveBack<C, H>(p: Pool<C, H>, h: H, alive: bool): Pool<C, H> {
    if h !in p.held then p
    else if alive then p.(held := p.held - {h}, idle := p.idle + [p.held[h]])
    else p.(held := p.held - {h}, dropped := p.dropped + {p.held[h]})
  }

  // The move constructor: to is new, from is left empty.
  function Move<C, H>(p: Pool<C, H>, to: H, from: H): Pool<C, H> {
    if from !in p.held then p else p.(held := (p.held - {from})[to := p.held[from]])
  }

  // The move assignment, self-assignment included.
  function Assign<C, H>(p: Pool<C, H>, to: H, from: H, alive: bool): Pool<C, H> {
    if to == from then p else Move(GiveBack(p, to, alive), to, from)
  }

  // Exclusive lending: every connection the pool owns is idle, held by exactly
  // one handle, or dropped, and only one of these.
  ghost predicate Exclusive<C, H>(p: Pool<C, H>) {
    && NoDup(p.all) && NoDup(p.idle)
    && (forall h, k :: h in p.held && k in p.held && h != k ==> p.held[h] != p.held[k])
    && Members(p.all) == Members(p.idle) + p.held.Values + p.dropped
    && Members(p.idle) !! p.held.Values !! p.dropped
  }

  lemma NoDupConcat<C>(xs: seq<C>, ys: seq<C>)
    requires NoDup(xs) && NoDup(ys) && Members(xs) !! Members(ys)
    ensures NoDup(xs + ys) && Members(xs + ys) == Members(xs) + Members(ys)
  {
    forall i, j | 0 <= i < j < |xs + ys| ensures (xs + ys)[i] != (xs + ys)[j] {
      if i < |xs| <= j {
        assert xs[i] in Members(xs) && ys[j - |xs|] in Members(ys);
      }
    }
  }

  lemma InitKeeps<C, H>(p: Pool<C, H>, made: seq<C>)
    requires Exclusive(p) && NoDup(made) && Members(made) !! Members(p.all)
    ensures Exclusive(Init(p, made))
  {
    NoDupConcat(p.all, made);
    NoDupConcat(p.idle, made);
  }

  lemma Split<C>(xs: seq<C>, n: nat)
    requires NoDup(xs) && n <= |xs|
    ensures NoDup(xs[..n]) && NoDup(xs[n..])
    ensures Members(xs) == Members(xs[..n]) + Members(xs[n..]) && Members(xs[..n]) !! Members(xs[n..])
  {
    assert xs == xs[..n] + xs[n..];
  }

  lemma DiscardKeeps<C, H>(p: Pool<C, H>, dead: nat)
    requires Exclusive(p) && dead <= |p.idle|
    ensures Exclusive(Discard(p, dead))
  {
    Split(p.idle, dead);
  }

  // One more handle, one more value.
  lemma HoldOne<C, H>(held: map<H, C>, h: H, c: C)
    requires h !in held && c !in held.Values
    ensures held[h := c].Values == held.Values + {c}
  {
    forall x ensures x in held[h := c].Values <==> x in held.Values + {c} {
      if x == c {
        assert held[h := c][h] == c;
      } else if x in held.Values {
        var k :| k in held && held[k] == x;
        assert held[h := c][k] == x;
      }
    }
  }

  lemma DropOne<C, H>(held: map<H, C>, h: H)
    requires h in held
    requires forall k, l :: k in held && l in held && k != l ==> held[k] != held[l]
    ensures (held - {h}).Values == held.Values - {held[h]}
  {
    var left := held - {h};
    forall x ensures x in left.Values <==> x in held.Values - {held[h]} {
      if x in held.Values - {held[h]} {
        var k :| k in held && held[k] == x;
        assert left[k] == x;
      }
    }
  }

  lemma LendFrontKeeps<C, H>(p: Pool<C, H>, h: H)
    requires Exclusive(p) && p.idle != [] && h !in p.held
    ensures Exclusive(LendFront(p, h))
  {
    var c := p.idle[0];
    Split(p.idle, 1);
    assert Members(p.idle[..1]) == {c};
    assert c in Members(p.idle);
    HoldOne(p.held, h, c);
  }

  lemma LendNewKeeps<C, H>(p: Pool<C, H>, h: H, c: C)
    requires Exclusive(p) && c !in p.all && h !in p.held
    ensures Exclusive(LendNew(p, h, c))
  {
    assert Members([c]) == {c} && c !in Members(p.all);
    NoDupConcat(p.all, [c]);
    HoldOne(p.held, h, c);
  }

  lemma GiveBackKeeps<C, H>(p: Pool<C, H>, h: H, alive: bool)
    requires Exclusive(p)
    ensures Exclusive(GiveBack(p, h, alive))
  {
    if h in p.held {
      var c := p.held[h];
      assert c in p.held.Values;
      DropOne(p.held, h);
      if alive {
        assert Members([c]) == {c};
        NoDupConcat(p.idle, [c]);
      }
    }
  }

  lemma MoveKeeps<C, H>(p: Pool<C, H>, to: H, from: H)
    requires Exclusive(p) && to !in p.held
    ensures Exclusive(Move(p, to, from))
    ensures Move(p, to, from).held.Values == p.held.Values
  {
    if from in p.held {
      assert p.held[from] in p.held.Values;
      DropOne(p.held, from);
      HoldOne(p.held - {from}, to, p.held[from]);
    }
  }

  lemma AssignKeeps<C, H>(p: Pool<C, H>, to: H, from: H, alive: bool)
    requires Exclusive(p)
    ensures Exclusive(Assign(p, to, from, alive))
  {
    if to != from {
      GiveBackKeeps(p, to, alive);
      MoveKeeps(GiveBack(p, to, alive), to, from);
    }
  }

  // What a move assignment to another handle leaves: the target holds what the
  // source held, which is empty; the target's own connection is idle again, at the
  // back, if it is alive, and dropped otherwise; nothing else changes.
  lemma AssignMoves<C, H>(p: Pool<C, H>, to: H, from: H, alive: bool)
    requires to != from
    ensures var p' := Assign(p, to, from, alive);
      && from !in p'.held && (to in p'.held <==> from in p.held)
      && (from in p.held ==> p'.held[to] == p.held[from])
      && (forall h :: h != to && h != from ==> (h in p'.held <==> h in p.held))
      && (forall h :: h in p.held && h != to && h != from ==> p'.held[h] == p.held[h])
      && p'.idle == p.idle + (if to in p.held && alive then [p.held[to]] else [])
      && p'.dropped == p.dropped + (if to in p.held && !alive then {p.held[to]} else {})
      && p'.all == p.all
  {
  }

  // ----------------------------------------------------------------- counting

  lemma {:induction false} CountMembers<C>(xs: seq<C>)
    requires NoDup(xs)
    ensures |Members(xs)| == |xs|
    decreases |xs|
  {
    if xs == [] {
    } else {
      var n := |xs| - 1;
      CountMembers(xs[..n]);
      Split(xs, n);
      assert Members(xs[n..]) == {xs[n]};
    }
  }

  lemma {:induction false} CountHeld<C, H>(held: map<H, C>)
    requires forall k, l :: k in held && l in held && k != l ==> held[k] != held[l]
    ensures |held.Values| == |held|
    decreases |held|
  {
    if held.Keys != {} {
      var h :| h in held.Keys;
      var left := held - {h};
      DropOne(held, h);
      assert held.Keys == left.Keys + {h};
      assert |held| == |left| + 1;
      CountHeld(left);
      assert held[h] in held.Values;
    } else {
      assert held == map[];
    }
  }

  // Every connection is accounted for, so each one dropped shrinks what the pool
  // can ever lend.
  lemma Accounting<C, H>(p: Pool<C, H>)
    requires Exclusive(p)
    ensures |p.all| == |p.idle| + |p.held| + |p.dropped|
  {
    CountMembers(p.all);
    CountMembers(p.idle);
    CountHeld(p.held);
  }
}
