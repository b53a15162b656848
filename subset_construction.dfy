/** The bookkeeping of `_convert_nfa_to_dfa` in
    matchpy/matching/syntactic.py: the dictionary `new_states` from sets of
    NFA state ids to DFA states, the work `queue`, and what has been built so
    far. The invariant says which DFA states are complete (every label of
    their NFA states but `EPSILON` leads to the DFA state of its target set),
    and the lemmas show that each step of the construction keeps it. */
module SubsetConstruction {
  import opened Terms
  import opened Sequences
  import opened Transitions
  import opened Closures

  /** `set().union(*(states[s].keys() for s in state))`. */
  function NfaLabels(nfa: map<nat, State>, t: set<nat>): set<Label>
    requires t <= nfa.Keys
  {
    set x, l | x in t && l in Keys(nfa[x].edges) :: l
  }

  /** The payloads of the NFA states of a set, which `_create_state` joins. */
  function PayloadUnion(nfa: map<nat, State>, t: set<nat>): set<nat>
    requires t <= nfa.Keys
  {
    set x, p | x in t && p in nfa[x].payload :: p
  }

  /** The DFA state of `t` has transitions on exactly the labels `ls`, each
      to the DFA state of the target set of `t` on that label. */
  ghost predicate EdgesDone(nfa: map<nat, State>, states: map<nat, State>, dfa: map<set<nat>, nat>, t: set<nat>, ls: set<Label>) {
    t <= nfa.Keys && t in dfa && dfa[t] in states &&
    Keys(states[dfa[t]].edges) == ls &&
    forall l :: l in ls ==> TargetSpec(nfa, t, l) in dfa && Get(states[dfa[t]].edges, l) == Some(dfa[TargetSpec(nfa, t, l)])
  }

  /** A complete DFA state: a transition on every label of its NFA states
      except `EPSILON`. */
  ghost predicate Complete(nfa: map<nat, State>, states: map<nat, State>, dfa: map<set<nat>, nat>, t: set<nat>) {
    t <= nfa.Keys && EdgesDone(nfa, states, dfa, t, NfaLabels(nfa, t) - {Epsilon})
  }

  /** The DFA state of `t` is one of the states created since `n0`, `sub`
      maps it back to `t`, its payload joins the payloads of `t`, and all of
      `t` lies on the nesting level of the DFA state. */
  ghost predicate DfaNode(nfa: map<nat, State>, nlevel: map<nat, int>, states: map<nat, State>, level: map<nat, int>,
                          dfa: map<set<nat>, nat>, sub: map<nat, set<nat>>, t: set<nat>, n0: nat, next: nat) {
    t in dfa && t <= nfa.Keys && n0 <= dfa[t] < next && dfa[t] in states && dfa[t] in level &&
    dfa[t] in sub && sub[dfa[t]] == t &&
    Elems(states[dfa[t]].payload) == PayloadUnion(nfa, t) &&
    OnLevel(nfa, nlevel, t, level[dfa[t]])
  }

  /** `t` has a DFA state. The invariant's quantifiers over sets are
      instantiated only where a proof names `Tracked(dfa, t)`. */
  ghost predicate Tracked(dfa: map<set<nat>, nat>, t: set<nat>) {
    t in dfa
  }

  /** The invariant of the construction loop. `cur` is the set whose DFA
      state is being given its transitions: every other set that is not
      waiting in the queue is complete, and every waiting one has no
      transitions yet. */
  ghost predicate DfaInv(nfa: map<nat, State>, nlevel: map<nat, int>, states: map<nat, State>, level: map<nat, int>,
                         dfa: map<set<nat>, nat>, sub: map<nat, set<nat>>, queue: seq<set<nat>>, cur: Option<set<nat>>,
                         n0: nat, next: nat) {
    (forall x :: x in nfa ==> x < n0) &&
    (forall t {:trigger Tracked(dfa, t)} :: Tracked(dfa, t) ==> DfaNode(nfa, nlevel, states, level, dfa, sub, t, n0, next)) &&
    (forall d :: d in sub ==> n0 <= d < next) &&
    (forall i :: 0 <= i < |queue| ==> queue[i] in dfa && dfa[queue[i]] in states && states[dfa[queue[i]]].edges == []) &&
    (forall i, j :: 0 <= i < j < |queue| ==> queue[i] != queue[j]) &&
    (cur.Some? ==> cur.value in dfa && cur.value !in queue) &&
    (forall t {:trigger Tracked(dfa, t)} :: Tracked(dfa, t) && t !in queue && cur != Some(t) ==> Complete(nfa, states, dfa, t))
  }

  /** The start of the construction: the closure of the root is the only
      set, waiting in the queue. */
  lemma InitInv(nfa: map<nat, State>, nlevel: map<nat, int>, states: map<nat, State>, level: map<nat, int>,
                r: set<nat>, id: nat, n0: nat)
    requires forall x :: x in nfa ==> x < n0
    requires r <= nfa.Keys && id == n0
    requires id in states && id in level && states[id].edges == []
    requires Elems(states[id].payload) == PayloadUnion(nfa, r) && OnLevel(nfa, nlevel, r, level[id])
    ensures DfaInv(nfa, nlevel, states, level, map[r := id], map[id := r], [r], None, n0, id + 1)
  {
  }

  /** A new waiting DFA state for the set `target`. */
  lemma NewNode(nfa: map<nat, State>, nlevel: map<nat, int>, states: map<nat, State>, level: map<nat, int>,
                dfa: map<set<nat>, nat>, sub: map<nat, set<nat>>, queue: seq<set<nat>>, c: set<nat>, ls: set<Label>,
                n0: nat, next: nat, target: set<nat>, states': map<nat, State>, level': map<nat, int>)
    requires DfaInv(nfa, nlevel, states, level, dfa, sub, queue, Some(c), n0, next)
    requires EdgesDone(nfa, states, dfa, c, ls)
    requires target !in dfa && target <= nfa.Keys
    requires forall k :: k in states ==> k < next
    requires next in states' && states' == states[next := states'[next]] && states'[next].edges == []
    requires Elems(states'[next].payload) == PayloadUnion(nfa, target)
    requires next in level' && level' == level[next := level'[next]] && OnLevel(nfa, nlevel, target, level'[next])
    ensures DfaInv(nfa, nlevel, states', level', dfa[target := next], sub[next := target], queue + [target], Some(c), n0, next + 1)
    ensures EdgesDone(nfa, states', dfa[target := next], c, ls)
  {
    var dfa' := dfa[target := next];
    var sub' := sub[next := target];
    var queue' := queue + [target];
    assert Tracked(dfa, c);
    forall t | t in dfa'
      ensures DfaNode(nfa, nlevel, states', level', dfa', sub', t, n0, next + 1)
    {
      if t != target {
        assert Tracked(dfa, t);
        assert DfaNode(nfa, nlevel, states, level, dfa, sub, t, n0, next);
      }
    }
    forall t | t in dfa' && t !in queue' && Some(c) != Some(t)
      ensures Complete(nfa, states', dfa', t)
    {
      assert t in dfa && t !in queue;
      assert Tracked(dfa, t);
      assert Complete(nfa, states, dfa, t);
      assert dfa'[t] == dfa[t] && states'[dfa[t]] == states[dfa[t]];
      forall l | l in NfaLabels(nfa, t) - {Epsilon}
        ensures TargetSpec(nfa, t, l) in dfa' && Get(states'[dfa'[t]].edges, l) == Some(dfa'[TargetSpec(nfa, t, l)])
      {
        assert TargetSpec(nfa, t, l) in dfa;
      }
    }
    assert dfa'[c] == dfa[c] && states'[dfa[c]] == states[dfa[c]];
    forall l | l in ls
      ensures TargetSpec(nfa, c, l) in dfa' && Get(states'[dfa'[c]].edges, l) == Some(dfa'[TargetSpec(nfa, c, l)])
    {
      assert TargetSpec(nfa, c, l) in dfa;
    }
    assert forall i :: 0 <= i < |queue| ==> queue'[i] == queue[i];
  }

  /** The transition of the DFA state of `c` on `l` to the DFA state of its
      target set. */
  lemma AddEdge(nfa: map<nat, State>, nlevel: map<nat, int>, states: map<nat, State>, level: map<nat, int>,
                dfa: map<set<nat>, nat>, sub: map<nat, set<nat>>, queue: seq<set<nat>>, c: set<nat>, ls: set<Label>,
                n0: nat, next: nat, l: Label, states': map<nat, State>)
    requires DfaInv(nfa, nlevel, states, level, dfa, sub, queue, Some(c), n0, next)
    requires EdgesDone(nfa, states, dfa, c, ls)
    requires TargetSpec(nfa, c, l) in dfa
    requires states' == states[dfa[c] := State(Put(states[dfa[c]].edges, l, dfa[TargetSpec(nfa, c, l)]), states[dfa[c]].payload)]
    ensures DfaInv(nfa, nlevel, states', level, dfa, sub, queue, Some(c), n0, next)
    ensures EdgesDone(nfa, states', dfa, c, ls + {l})
  {
    var d := dfa[c];
    var e := dfa[TargetSpec(nfa, c, l)];
    PutFacts(states[d].edges, l, e);
    forall t | t in dfa
      ensures DfaNode(nfa, nlevel, states', level, dfa, sub, t, n0, next)
    {
      assert Tracked(dfa, t);
      assert DfaNode(nfa, nlevel, states, level, dfa, sub, t, n0, next);
    }
    forall t | t in dfa && t != c
      ensures states'[dfa[t]] == states[dfa[t]]
    {
      assert sub[dfa[t]] == t && sub[d] == c;
    }
    forall t | t in dfa && t !in queue && Some(c) != Some(t)
      ensures Complete(nfa, states', dfa, t)
    {
      assert Tracked(dfa, t);
      assert Complete(nfa, states, dfa, t);
    }
  }

  /** Taking the last set off the queue makes it the current one, with no
      transitions yet. */
  lemma PopInv(nfa: map<nat, State>, nlevel: map<nat, int>, states: map<nat, State>, level: map<nat, int>,
               dfa: map<set<nat>, nat>, sub: map<nat, set<nat>>, queue: seq<set<nat>>, n0: nat, next: nat)
    requires DfaInv(nfa, nlevel, states, level, dfa, sub, queue, None, n0, next) && queue != []
    ensures var c := queue[|queue| - 1];
            DfaInv(nfa, nlevel, states, level, dfa, sub, queue[..|queue| - 1], Some(c), n0, next) &&
            EdgesDone(nfa, states, dfa, c, {})
  {
    var c := queue[|queue| - 1];
    var q := queue[..|queue| - 1];
    assert forall i :: 0 <= i < |q| ==> q[i] == queue[i];
    assert c !in q;
    assert forall t :: t in queue ==> t in q || t == c;
    assert Tracked(dfa, c);
    assert DfaNode(nfa, nlevel, states, level, dfa, sub, c, n0, next);
    assert Keys(states[dfa[c]].edges) == {};
  }

  /** Once the current set has all its transitions it is complete. */
  lemma FinishInv(nfa: map<nat, State>, nlevel: map<nat, int>, states: map<nat, State>, level: map<nat, int>,
                  dfa: map<set<nat>, nat>, sub: map<nat, set<nat>>, queue: seq<set<nat>>, c: set<nat>, n0: nat, next: nat)
    requires DfaInv(nfa, nlevel, states, level, dfa, sub, queue, Some(c), n0, next)
    requires c <= nfa.Keys && EdgesDone(nfa, states, dfa, c, NfaLabels(nfa, c) - {Epsilon})
    ensures DfaInv(nfa, nlevel, states, level, dfa, sub, queue, None, n0, next)
  {
  }

  /** With the queue empty, every DFA state is complete. */
  lemma DoneInv(nfa: map<nat, State>, nlevel: map<nat, int>, states: map<nat, State>, level: map<nat, int>,
                dfa: map<set<nat>, nat>, sub: map<nat, set<nat>>, n0: nat, next: nat)
    requires DfaInv(nfa, nlevel, states, level, dfa, sub, [], None, n0, next)
    ensures forall t :: t in dfa ==> Complete(nfa, states, dfa, t) && Elems(states[dfa[t]].payload) == PayloadUnion(nfa, t)
  {
    forall t | t in dfa
      ensures Complete(nfa, states, dfa, t) && Elems(states[dfa[t]].payload) == PayloadUnion(nfa, t)
    {
      assert Tracked(dfa, t);
    }
  }

  /** Every set that gets a DFA state is a set of NFA states. */
  lemma DfaBound(nfa: map<nat, State>, nlevel: map<nat, int>, states: map<nat, State>, level: map<nat, int>,
                 dfa: map<set<nat>, nat>, sub: map<nat, set<nat>>, queue: seq<set<nat>>, cur: Option<set<nat>>, n0: nat, next: nat)
    requires DfaInv(nfa, nlevel, states, level, dfa, sub, queue, cur, n0, next)
    ensures dfa.Keys <= PowerSet(nfa.Keys) && |dfa| <= |PowerSet(nfa.Keys)|
  {
    forall t | t in dfa ensures t in PowerSet(nfa.Keys) {
      assert Tracked(dfa, t);
      assert DfaNode(nfa, nlevel, states, level, dfa, sub, t, n0, next);
    }
    SubsetCard(dfa.Keys, PowerSet(nfa.Keys));
  }

  function PowerSet(s: set<nat>): set<set<nat>> {
    set x | x <= s
  }

  lemma SubsetCard<T>(a: set<T>, b: set<T>)
    requires a <= b
    ensures |a| <= |b|
  {
    assert b == a + (b - a) && a * (b - a) == {};
  }

  lemma PayloadUnionAdd(nfa: map<nat, State>, t: set<nat>, x: nat)
    requires t + {x} <= nfa.Keys
    ensures PayloadUnion(nfa, t + {x}) == PayloadUnion(nfa, t) + Elems(nfa[x].payload)
  {
  }

  lemma PayloadUnionIn(nfa: map<nat, State>, t: set<nat>)
    requires t <= nfa.Keys
    ensures PayloadUnion(nfa, t) <= AllPayloads(nfa)
  {
  }

  /** A label of some NFA state of the set has a non-empty target set: that
      state's own transition on it is a move. */
  lemma TargetNonEmpty(nfa: map<nat, State>, t: set<nat>, l: Label)
    requires t <= nfa.Keys && l in NfaLabels(nfa, t)
    ensures TargetSpec(nfa, t, l) != {}
  {
    var x :| x in t && l in Keys(nfa[x].edges);
    var y := Get(nfa[x].edges, l).value;
    assert y in DirectMove(nfa[x].edges, l);
    assert y in Moves(nfa, x, l);
    assert y in MoveSet(nfa, t, l);
    EpsClosureLeast(nfa, MoveSet(nfa, t, l));
  }

  /** The loop of `_create_state` that joins the payloads of the NFA states
      of a set. */
  method JoinPayloads(t: set<nat>, nfa: map<nat, State>) returns (payload: set<nat>)
    requires t <= nfa.Keys
    ensures payload == PayloadUnion(nfa, t)
  {
    payload := {};
    var rest := t;
    while rest != {}
      invariant rest <= t && payload == PayloadUnion(nfa, t - rest)
      decreases |rest|
    {
      var x :| x in rest;
      PayloadUnionAdd(nfa, t - rest, x);
      payload := payload + Elems(nfa[x].payload);
      assert t - (rest - {x}) == (t - rest) + {x};
      rest := rest - {x};
    }
    assert t - rest == t;
  }

  predicate NoDuplicates(s: seq<nat>) {
    forall i, j :: 0 <= i < j < |s| ==> s[i] != s[j]
  }

  /** `list(s)`: the members of the set, each once, in some order. */
  method SetToList(s: set<nat>) returns (r: seq<nat>)
    ensures Elems(r) == s && NoDuplicates(r)
  {
    r := [];
    var rest := s;
    while rest != {}
      invariant rest <= s && Elems(r) == s - rest && NoDuplicates(r)
      decreases |rest|
    {
      var x :| x in rest;
      assert x !in Elems(r);
      assert Elems(r + [x]) == Elems(r) + {x};
      r := r + [x];
      rest := rest - {x};
    }
  }
}
