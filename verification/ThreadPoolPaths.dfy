// Paths of the step system from one state to another.
module ThreadPoolPaths {
  import opened Sequences
  import opened ThreadPoolSteps
  import opened ThreadPoolInvariant
  import opened ThreadPoolTheorems
  import opened ThreadPoolTermination

  ghost predicate IsPath(states: seq<Pool>, events: seq<Event>) {
    && |states| == |events| + 1
    && forall i :: 0 <= i < |events| ==>
         Enabled(states[i], events[i]) && states[i + 1] == Apply(states[i], events[i])
  }

  // Some steps lead from x to y.
  ghost predicate Leads(x: Pool, y: Pool) {
    exists states, events :: IsPath(states, events) && states[0] == x && states[|events|] == y
  }

  // Some run reaches s.
  ghost predicate Reachable(s: Pool) {
    exists s0 :: IsInit(s0) && Leads(s0, s)
  }

  lemma Start(s: Pool)
    ensures Leads(s, s)
  {
    assert IsPath([s], []);
  }

  lemma Step(x: Pool, y: Pool, e: Event, z: Pool)
    requires Leads(x, y) && Enabled(y, e) && Apply(y, e) == z
    ensures Leads(x, z)
  {
    var states, events :| IsPath(states, events) && states[0] == x && states[|events|] == y;
    var states', events' := states + [z], events + [e];
    assert IsPath(states', events') by {
      forall i | 0 <= i < |events'|
        ensures Enabled(states'[i], events'[i]) && states'[i + 1] == Apply(states'[i], events'[i])
      {
        if i < |events| {
          assert states'[i] == states[i] && states'[i + 1] == states[i + 1] && events'[i] == events[i];
        }
      }
    }
    assert states'[0] == x && states'[|events'|] == z;
  }

  lemma Take(s: Pool, e: Event, s': Pool)
    requires Reachable(s) && Enabled(s, e) && Apply(s, e) == s'
    ensures Reachable(s')
  {
    var s0 :| IsInit(s0) && Leads(s0, s);
    Step(s0, s, e, s');
  }

  lemma {:induction false} Follow(x: Pool, states: seq<Pool>, events: seq<Event>, k: nat)
    requires IsPath(states, events) && k <= |events| && Leads(x, states[0])
    ensures Leads(x, states[k])
  {
    if k > 0 {
      Follow(x, states, events, k - 1);
      Step(x, states[k - 1], events[k - 1], states[k]);
    }
  }

  lemma LeadsOn(x: Pool, y: Pool, z: Pool)
    requires Leads(x, y) && Leads(y, z)
    ensures Leads(x, z)
  {
    var states, events :| IsPath(states, events) && states[0] == y && states[|events|] == z;
    Follow(x, states, events, |events|);
  }

  // Any two states of a run, in order.
  lemma RunLeads(states: seq<Pool>, events: seq<Event>, i: nat, j: nat)
    requires IsRun(states, events) && i <= j < |states|
    ensures Leads(states[i], states[j])
  {
    assert IsPath(states[i..j + 1], events[i..j]);
  }

  lemma {:induction false} PathInv(states: seq<Pool>, events: seq<Event>, k: nat)
    requires IsPath(states, events) && k <= |events| && Inv(states[0])
    ensures Inv(states[k])
  {
    if k > 0 {
      PathInv(states, events, k - 1);
      InvStep(states[k - 1], events[k - 1]);
    }
  }

  lemma LeadsInv(x: Pool, y: Pool)
    requires Leads(x, y) && Inv(x)
    ensures Inv(y)
  {
    var states, events :| IsPath(states, events) && states[0] == x && states[|events|] == y;
    PathInv(states, events, |events|);
  }

  lemma ReachableInv(s: Pool)
    requires Reachable(s)
    ensures Inv(s)
  {
    var s0 :| IsInit(s0) && Leads(s0, s);
    InitInv(s0);
    LeadsInv(s0, s);
  }

  // From every state of a closed pool shutdown can return.
  lemma {:induction false} CanReturn(x: Pool, s: Pool) returns (z: Pool)
    requires Leads(x, s) && Inv(s) && !s.running
    ensures Leads(x, z) && Inv(z) && z.closer.Returned?
    decreases Work(s), Way(s)
  {
    if s.closer.Returned? {
      z := s;
    } else {
      var e := SomeoneMoves(s);
      var s' := Apply(s, e);
      InvStep(s, e);
      StepCloser(s, e);
      Step(x, s, e, s');
      z := CanReturn(x, s');
    }
  }
}
