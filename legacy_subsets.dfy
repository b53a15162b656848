/** The subset construction of the legacy `DiscriminationNet` in
    patternmatcher/syntactic.py. There a transition may lead to a terminal
    list of final labels instead of a state. The NFA of one pattern has a
    single such list, `tm`, which ends the last transition; a label on which
    some NFA state of a set goes straight to that list makes the DFA state
    of the set go to the list too, and every other label leads to the DFA
    state of the target set, as in matchpy. */
module LegacySubsets {
  import opened Terms
  import opened Sequences
  import opened Transitions
  import opened Closures
  import opened SubsetConstruction

  /** The NFA state ids that are terminal lists are exactly `tm`, which has
      no transitions; no transition on `Wildcard`, on a symbol class or on
      `EPSILON` leads to it (the source asserts the first two and would take
      the `id` of a list on the third). */
  ghost predicate ListShape(nfa: map<nat, State>, terms: set<nat>, tm: nat) {
    tm in nfa && tm in terms && nfa[tm].edges == [] &&
    (forall x :: x in nfa && x in terms ==> x == tm) &&
    (forall x, l, t {:trigger (l, t) in nfa[x].edges} :: x in nfa && (l, t) in nfa[x].edges && t == tm ==>
       l != AnyWild && !l.SymbolType? && l != Epsilon)
  }

  /** Some NFA state of `t` has a transition on `l` straight to `tm`. */
  ghost predicate HitsList(nfa: map<nat, State>, tm: nat, t: set<nat>, l: Label) {
    exists x :: x in t && x in nfa && Get(nfa[x].edges, l) == Some(tm)
  }

  /** What `_target_set` returns: the terminal list, or a set of NFA state
      ids. */
  datatype Target = ListTarget(list: nat) | SetTarget(ids: set<nat>)

  /** Without a direct transition to the list, the target set holds no
      list: the moves of the set do not reach it, and neither do the
      epsilon transitions from there. */
  lemma NoListInTarget(nfa: map<nat, State>, terms: set<nat>, tm: nat, c: set<nat>, l: Label)
    requires Closed(nfa) && ListShape(nfa, terms, tm) && c <= nfa.Keys && !HitsList(nfa, tm, c, l)
    ensures tm !in TargetSpec(nfa, c, l)
  {
    var m := MoveSet(nfa, c, l);
    var rest := nfa.Keys - {tm};
    forall y | y in m
      ensures y in rest
    {
      var x :| x in c && y in Moves(nfa, x, l);
      var es := nfa[x].edges;
      if y in DirectMove(es, l) {
        assert (l, y) in es;
        assert Get(es, l) == Some(y);
        assert y != tm;
      } else if y in SymbolMove(es, l) {
        var k := SymbolWildcardKey(es, l).value;
        assert (k, y) in es && k.SymbolType?;
      } else {
        assert y in WildMove(es, l);
        assert (AnyWild, y) in es;
      }
      assert y in nfa;
    }
    NoListInClosure(nfa, terms, tm, m);
  }

  /** The epsilon closure of a set without the list holds no list. */
  lemma NoListInClosure(nfa: map<nat, State>, terms: set<nat>, tm: nat, s: set<nat>)
    requires Closed(nfa) && ListShape(nfa, terms, tm) && s <= nfa.Keys && tm !in s
    ensures tm !in EpsClosure(nfa, s)
  {
    var rest := nfa.Keys - {tm};
    forall x | x in rest && EpsTarget(nfa, x).Some?
      ensures EpsTarget(nfa, x).value in rest
    {
      assert (Epsilon, EpsTarget(nfa, x).value) in nfa[x].edges;
    }
    assert s <= rest && EpsClosed(nfa, rest);
    EpsClosureLeast(nfa, s);
  }

  lemma HitsListAdd(nfa: map<nat, State>, tm: nat, a: set<nat>, x: nat, l: Label)
    requires !HitsList(nfa, tm, a, l) && x in nfa && Get(nfa[x].edges, l) != Some(tm)
    ensures !HitsList(nfa, tm, a + {x}, l)
  {
  }

  /** `_target_set`: the state ids are visited in some order, and the first
      one whose own transition on `l` leads to a list returns that list;
      otherwise the moves of all of them, closed under epsilon
      transitions. */
  method LegacyTargetSet(nfa: map<nat, State>, terms: set<nat>, ghost tm: nat, c: set<nat>, l: Label) returns (r: Target)
    requires Closed(nfa) && ListShape(nfa, terms, tm) && c <= nfa.Keys
    ensures r.ListTarget? <==> HitsList(nfa, tm, c, l)
    ensures r.ListTarget? ==> r.list == tm
    ensures r.SetTarget? ==> r.ids == TargetSpec(nfa, c, l) && tm !in r.ids
  {
    var output: set<nat> := {};
    var done: set<nat> := {};
    var rest := c;
    while rest != {}
      invariant done + rest == c && done * rest == {}
      invariant output == MoveSet(nfa, done, l) && !HitsList(nfa, tm, done, l)
      decreases rest
    {
      var x :| x in rest;
      var direct := Get(nfa[x].edges, l);
      if direct.Some? && direct.value in terms {
        assert (l, direct.value) in nfa[x].edges;
        assert direct.value == tm;
        return ListTarget(direct.value);
      }
      MoveSetAdd(nfa, done, x, l);
      HitsListAdd(nfa, tm, done, x, l);
      output := output + Moves(nfa, x, l);
      done := done + {x};
      rest := rest - {x};
    }
    assert done == c;
    NoListInTarget(nfa, terms, tm, c, l);
    var closure := EpsilonClosure(nfa, output);
    r := SetTarget(closure);
  }

  /** The DFA state of `t`: one of the states created since `n0`, without
      payload, mapped back to `t` by `sub`; `t` holds no list and lies on
      the nesting level of the DFA state. */
  ghost predicate LDfaNode(nfa: map<nat, State>, nlevel: map<nat, int>, states: map<nat, State>, level: map<nat, int>,
                           dfa: map<set<nat>, nat>, sub: map<nat, set<nat>>, tm: nat, t: set<nat>, n0: nat, next: nat) {
    t in dfa && t <= nfa.Keys && tm !in t && n0 <= dfa[t] < next && dfa[t] in states && dfa[t] in level &&
    dfa[t] in sub && sub[dfa[t]] == t && states[dfa[t]].payload == [] &&
    OnLevel(nfa, nlevel, t, level[dfa[t]])
  }

  /** The transition of the DFA state of `t` on `l`: the list when some
      NFA state of `t` goes there directly, otherwise the DFA state of the
      target set. */
  ghost predicate LEdgeOk(nfa: map<nat, State>, tm: nat, states: map<nat, State>, dfa: map<set<nat>, nat>, t: set<nat>, l: Label)
    requires t <= nfa.Keys && t in dfa && dfa[t] in states
  {
    if HitsList(nfa, tm, t, l) then Get(states[dfa[t]].edges, l) == Some(tm)
    else TargetSpec(nfa, t, l) in dfa && Get(states[dfa[t]].edges, l) == Some(dfa[TargetSpec(nfa, t, l)])
  }

  /** The DFA state of `t` has transitions on exactly the labels `ls`. */
  ghost predicate LEdgesDone(nfa: map<nat, State>, tm: nat, states: map<nat, State>, dfa: map<set<nat>, nat>, t: set<nat>, ls: set<Label>) {
    t <= nfa.Keys && t in dfa && dfa[t] in states &&
    Keys(states[dfa[t]].edges) == ls &&
    forall l :: l in ls ==> LEdgeOk(nfa, tm, states, dfa, t, l)
  }

  /** A complete DFA state: a transition on every label of its NFA states
      except `EPSILON`. */
  ghost predicate LComplete(nfa: map<nat, State>, tm: nat, states: map<nat, State>, dfa: map<set<nat>, nat>, t: set<nat>) {
    t <= nfa.Keys && LEdgesDone(nfa, tm, states, dfa, t, NfaLabels(nfa, t) - {Epsilon})
  }

  /** The invariant of the construction loop, as in matchpy, with the list
      transitions of `LEdgeOk`. */
  ghost predicate LDfaInv(nfa: map<nat, State>, nlevel: map<nat, int>, states: map<nat, State>, level: map<nat, int>,
                          dfa: map<set<nat>, nat>, sub: map<nat, set<nat>>, tm: nat, queue: seq<set<nat>>, cur: Option<set<nat>>,
                          n0: nat, next: nat) {
    (forall x :: x in nfa ==> x < n0) &&
    (forall t {:trigger Tracked(dfa, t)} :: Tracked(dfa, t) ==> LDfaNode(nfa, nlevel, states, level, dfa, sub, tm, t, n0, next)) &&
    (forall d :: d in sub ==> n0 <= d < next) &&
    (forall i :: 0 <= i < |queue| ==> queue[i] in dfa && dfa[queue[i]] in states && states[dfa[queue[i]]].edges == []) &&
    (forall i, j :: 0 <= i < j < |queue| ==> queue[i] != queue[j]) &&
    (cur.Some? ==> cur.value in dfa && cur.value !in queue) &&
    (forall t {:trigger Tracked(dfa, t)} :: Tracked(dfa, t) && t !in queue && cur != Some(t) ==> LComplete(nfa, tm, states, dfa, t))
  }

  lemma LInitInv(nfa: map<nat, State>, nlevel: map<nat, int>, states: map<nat, State>, level: map<nat, int>,
                 tm: nat, r: set<nat>, id: nat, n0: nat)
    requires forall x :: x in nfa ==> x < n0
    requires r <= nfa.Keys && tm !in r && id == n0
    requires id in states && id in level && states[id] == State([], []) && OnLevel(nfa, nlevel, r, level[id])
    ensures LDfaInv(nfa, nlevel, states, level, map[r := id], map[id := r], tm, [r], None, n0, id + 1)
  {
  }

  /** A new waiting DFA state for the set `target`. */
  lemma LNewNode(nfa: map<nat, State>, nlevel: map<nat, int>, states: map<nat, State>, level: map<nat, int>,
                 dfa: map<set<nat>, nat>, sub: map<nat, set<nat>>, tm: nat, queue: seq<set<nat>>, c: set<nat>, ls: set<Label>,
                 n0: nat, next: nat, target: set<nat>, states': map<nat, State>, level': map<nat, int>)
    requires LDfaInv(nfa, nlevel, states, level, dfa, sub, tm, queue, Some(c), n0, next)
    requires LEdgesDone(nfa, tm, states, dfa, c, ls)
    requires target !in dfa && target <= nfa.Keys && tm !in target
    requires forall k :: k in states ==> k < next
    requires next in states' && states' == states[next := State([], [])]
    requires next in level' && level' == level[next := level'[next]] && OnLevel(nfa, nlevel, target, level'[next])
    ensures LDfaInv(nfa, nlevel, states', level', dfa[target := next], sub[next := target], tm, queue + [target], Some(c), n0, next + 1)
    ensures LEdgesDone(nfa, tm, states', dfa[target := next], c, ls)
  {
    var dfa' := dfa[target := next];
    var sub' := sub[next := target];
    var queue' := queue + [target];
    assert Tracked(dfa, c);
    forall t | t in dfa'
      ensures LDfaNode(nfa, nlevel, states', level', dfa', sub', tm, t, n0, next + 1)
    {
      if t != target {
        assert Tracked(dfa, t);
        assert LDfaNode(nfa, nlevel, states, level, dfa, sub, tm, t, n0, next);
      }
    }
    forall t | t in dfa' && t !in queue' && Some(c) != Some(t)
      ensures LComplete(nfa, tm, states', dfa', t)
    {
      assert t in dfa && t !in queue;
      assert Tracked(dfa, t);
      assert LComplete(nfa, tm, states, dfa, t);
      assert dfa'[t] == dfa[t] && states'[dfa[t]] == states[dfa[t]];
      forall l | l in NfaLabels(nfa, t) - {Epsilon}
        ensures LEdgeOk(nfa, tm, states', dfa', t, l)
      {
        assert LEdgeOk(nfa, tm, states, dfa, t, l);
      }
    }
    assert dfa'[c] == dfa[c] && states'[dfa[c]] == states[dfa[c]];
    forall l | l in ls
      ensures LEdgeOk(nfa, tm, states', dfa', c, l)
    {
      assert LEdgeOk(nfa, tm, states, dfa, c, l);
    }
    assert forall i :: 0 <= i < |queue| ==> queue'[i] == queue[i];
  }

  /** The transition of the DFA state of `c` on `l` to `e`, the list or the
      DFA state of the target set as `LEdgeOk` demands. */
  lemma LAddEdge(nfa: map<nat, State>, nlevel: map<nat, int>, states: map<nat, State>, level: map<nat, int>,
                 dfa: map<set<nat>, nat>, sub: map<nat, set<nat>>, tm: nat, queue: seq<set<nat>>, c: set<nat>, ls: set<Label>,
                 n0: nat, next: nat, l: Label, e: nat, states': map<nat, State>)
    requires LDfaInv(nfa, nlevel, states, level, dfa, sub, tm, queue, Some(c), n0, next)
    requires LEdgesDone(nfa, tm, states, dfa, c, ls)
    requires HitsList(nfa, tm, c, l) ==> e == tm
    requires !HitsList(nfa, tm, c, l) ==> TargetSpec(nfa, c, l) in dfa && e == dfa[TargetSpec(nfa, c, l)]
    requires states' == states[dfa[c] := State(Put(states[dfa[c]].edges, l, e), states[dfa[c]].payload)]
    ensures LDfaInv(nfa, nlevel, states', level, dfa, sub, tm, queue, Some(c), n0, next)
    ensures LEdgesDone(nfa, tm, states', dfa, c, ls + {l})
  {
    var d := dfa[c];
    PutFacts(states[d].edges, l, e);
    forall t | t in dfa
      ensures LDfaNode(nfa, nlevel, states', level, dfa, sub, tm, t, n0, next)
    {
      assert Tracked(dfa, t);
      assert LDfaNode(nfa, nlevel, states, level, dfa, sub, tm, t, n0, next);
    }
    forall t | t in dfa && t != c
      ensures states'[dfa[t]] == states[dfa[t]]
    {
      assert Tracked(dfa, t) && Tracked(dfa, c);
      assert sub[dfa[t]] == t && sub[d] == c;
    }
    forall t | t in dfa && t !in queue && Some(c) != Some(t)
      ensures LComplete(nfa, tm, states', dfa, t)
    {
      assert Tracked(dfa, t);
      assert LComplete(nfa, tm, states, dfa, t);
      forall l' | l' in NfaLabels(nfa, t) - {Epsilon}
        ensures LEdgeOk(nfa, tm, states', dfa, t, l')
      {
        assert LEdgeOk(nfa, tm, states, dfa, t, l');
      }
    }
    forall l' | l' in ls + {l}
      ensures LEdgeOk(nfa, tm, states', dfa, c, l')
    {
      if l' != l {
        assert LEdgeOk(nfa, tm, states, dfa, c, l');
      }
    }
  }

  /** Taking the last set off the queue makes it the current one, with no
      transitions yet. */
  lemma LPopInv(nfa: map<nat, State>, nlevel: map<nat, int>, states: map<nat, State>, level: map<nat, int>,
                dfa: map<set<nat>, nat>, sub: map<nat, set<nat>>, tm: nat, queue: seq<set<nat>>, n0: nat, next: nat)
    requires LDfaInv(nfa, nlevel, states, level, dfa, sub, tm, queue, None, n0, next) && queue != []
    ensures var c := queue[|queue| - 1];
            LDfaInv(nfa, nlevel, states, level, dfa, sub, tm, queue[..|queue| - 1], Some(c), n0, next) &&
            LEdgesDone(nfa, tm, states, dfa, c, {})
  {
    var c := queue[|queue| - 1];
    var q := queue[..|queue| - 1];
    assert forall i :: 0 <= i < |q| ==> q[i] == queue[i];
    assert c !in q;
    assert forall t :: t in queue ==> t in q || t == c;
    assert Tracked(dfa, c);
    assert LDfaNode(nfa, nlevel, states, level, dfa, sub, tm, c, n0, next);
    assert Keys(states[dfa[c]].edges) == {};
  }

  lemma LFinishInv(nfa: map<nat, State>, nlevel: map<nat, int>, states: map<nat, State>, level: map<nat, int>,
                   dfa: map<set<nat>, nat>, sub: map<nat, set<nat>>, tm: nat, queue: seq<set<nat>>, c: set<nat>, n0: nat, next: nat)
    requires LDfaInv(nfa, nlevel, states, level, dfa, sub, tm, queue, Some(c), n0, next)
    requires c <= nfa.Keys && LEdgesDone(nfa, tm, states, dfa, c, NfaLabels(nfa, c) - {Epsilon})
    ensures LDfaInv(nfa, nlevel, states, level, dfa, sub, tm, queue, None, n0, next)
  {
  }

  /** With the queue empty, every DFA state is complete and has no
      payload. */
  lemma LDoneInv(nfa: map<nat, State>, nlevel: map<nat, int>, states: map<nat, State>, level: map<nat, int>,
                 dfa: map<set<nat>, nat>, sub: map<nat, set<nat>>, tm: nat, n0: nat, next: nat)
    requires LDfaInv(nfa, nlevel, states, level, dfa, sub, tm, [], None, n0, next)
    ensures forall t :: t in dfa ==> LComplete(nfa, tm, states, dfa, t) && tm !in t && n0 <= dfa[t] && states[dfa[t]].payload == []
  {
    forall t | t in dfa
      ensures LComplete(nfa, tm, states, dfa, t) && tm !in t && n0 <= dfa[t] && states[dfa[t]].payload == []
    {
      assert Tracked(dfa, t);
    }
  }

  /** Every set that gets a DFA state is a set of NFA states. */
  lemma LDfaBound(nfa: map<nat, State>, nlevel: map<nat, int>, states: map<nat, State>, level: map<nat, int>,
                  dfa: map<set<nat>, nat>, sub: map<nat, set<nat>>, tm: nat, queue: seq<set<nat>>, cur: Option<set<nat>>, n0: nat, next: nat)
    requires LDfaInv(nfa, nlevel, states, level, dfa, sub, tm, queue, cur, n0, next)
    ensures |dfa| <= |PowerSet(nfa.Keys)|
  {
    forall t | t in dfa ensures t in PowerSet(nfa.Keys) {
      assert Tracked(dfa, t);
      assert LDfaNode(nfa, nlevel, states, level, dfa, sub, tm, t, n0, next);
    }
    SubsetCard(dfa.Keys, PowerSet(nfa.Keys));
  }
}
