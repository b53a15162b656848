/** The queue items of the legacy `_product_net` in
    patternmatcher/syntactic.py. They are the items of matchpy (`Item`,
    `Child`, `ItemLabels`), but a component may be a terminal list: a list
    has no `id`, so it counts as 0 in the key `(id1, id2, depth)`, and
    `labels` raises `AttributeError` on an item whose list component is not
    the one sitting on a wildcard. A child whose key has no nonzero id is
    not a state: the transition goes to the list of the child, or to the
    concatenation of its two lists. Since lists count as 0, two different
    items can have one key; the product state of a key is that of the first
    of them, and the lemmas show that all items of a key lie on one level. */
module LegacyProducts {
  import opened Terms
  import opened Sequences
  import opened Transitions
  import opened ProductNets

  /** The id of a component: the state id, or 0 for `None` and for a
      terminal list (the `AttributeError` that `_StateQueueItem` catches). */
  function LId(terms: set<nat>, o: Option<nat>): nat {
    if o.Some? && o.value !in terms then o.value else 0
  }

  function LKey(terms: set<nat>, it: Item): (nat, nat, int) {
    (LId(terms, it.s1), LId(terms, it.s2), it.depth)
  }

  /** The child has a product state, rather than a list. */
  predicate Keyed(terms: set<nat>, it: Item) {
    LId(terms, it.s1) != 0 || LId(terms, it.s2) != 0
  }

  /** `labels` raises `AttributeError`: a component that does not sit on a
      wildcard is a list, which has no `keys`. */
  predicate Crash(terms: set<nat>, it: Item) {
    (it.s1.Some? && it.s1.value in terms && it.fixed != 1) || (it.s2.Some? && it.s2.value in terms && it.fixed != 2)
  }

  /** The entries of the lists of an item, first those of `state1`. */
  function ListPayload(net: map<nat, State>, it: Item): seq<nat> {
    PayloadOf(net, it.s1) + PayloadOf(net, it.s2)
  }

  /** The terminal lists are states of the net without transitions. */
  ghost predicate ListsShape(states: map<nat, State>, terms: set<nat>) {
    terms <= states.Keys && forall t :: t in terms ==> states[t].edges == []
  }

  /** Changing a state that is not a list keeps the lists. */
  lemma ListsUpdate(a: map<nat, State>, terms: set<nat>, p: nat, s: State)
    requires ListsShape(a, terms) && p !in terms
    ensures ListsShape(a[p := s], terms)
  {
  }

  /** Fewer lists keep their shape. */
  lemma ListsFewer(a: map<nat, State>, terms: set<nat>, terms': set<nat>)
    requires ListsShape(a, terms') && terms <= terms'
    ensures ListsShape(a, terms)
  {
  }

  /** A new list with no transitions keeps the lists, itself among them. */
  lemma ListsAdd(a: map<nat, State>, terms: set<nat>, p: nat, payload: seq<nat>)
    requires ListsShape(a, terms)
    ensures ListsShape(a[p := State([], payload)], terms + {p})
  {
  }

  /** A state without transitions can join the lists. */
  lemma ListsJoin(a: map<nat, State>, terms: set<nat>, p: nat)
    requires ListsShape(a, terms) && p in a && a[p].edges == []
    ensures ListsShape(a, terms + {p})
  {
  }

  /** Two items the construction meets with the same key that has a
      nonzero id lie on the same level: the sitting net is the same, since a
      sitting state is not a list, and a list on the other side is on the
      level of the state it stands for. */
  lemma LKeyLevel(net: map<nat, State>, nlevel: map<nat, int>, terms: set<nat>, a: Item, b: Item, d: int)
    requires forall x :: x in net ==> 0 < x
    requires ListsShape(net, terms)
    requires ItemOk(net, nlevel, a, d) && ItemOk(net, nlevel, b, d)
    requires LKey(terms, a) == LKey(terms, b) && Keyed(terms, a)
    ensures ItemLevel(nlevel, a) == ItemLevel(nlevel, b)
  {
    if a.fixed == 1 {
      assert a.s1.value !in terms;
    }
    if a.fixed == 2 {
      assert a.s2.value !in terms;
    }
    if b.fixed == 1 {
      assert b.s1.value !in terms;
    }
    if b.fixed == 2 {
      assert b.s2.value !in terms;
    }
  }

  lemma LKeyInSpace(states: map<nat, State>, level: map<nat, int>, terms: set<nat>, it: Item, d: int)
    requires ItemOk(states, level, it, d)
    ensures LKey(terms, it) in KeySpace(states.Keys, d)
  {
    assert LId(terms, it.s1) in states.Keys + {0} && LId(terms, it.s2) in states.Keys + {0};
  }

  /** A child without a product state does not sit on a wildcard and has a
      list, on the level of the child. */
  lemma ListChild(net: map<nat, State>, nlevel: map<nat, int>, terms: set<nat>, c: Item, d: int)
    requires forall x :: x in net ==> 0 < x
    requires ListsShape(net, terms) && ItemOk(net, nlevel, c, d) && !Keyed(terms, c)
    ensures c.fixed == 0 && (c.s1.Some? || c.s2.Some?)
    ensures c.s1.Some? ==> c.s1.value in terms && nlevel[c.s1.value] == ItemLevel(nlevel, c)
    ensures c.s2.Some? ==> c.s2.value in terms && nlevel[c.s2.value] == ItemLevel(nlevel, c)
  {
  }

  lemma ListPayloadIn(net: map<nat, State>, it: Item)
    ensures Elems(ListPayload(net, it)) <= AllPayloads(net)
  {
    forall o | o in [it.s1, it.s2] ensures Elems(PayloadOf(net, o)) <= AllPayloads(net) {
      if o.Some? && o.value in net {
        assert forall x :: x in net[o.value].payload ==> x in AllPayloads(net);
      }
    }
  }

  /** Where the transition of a product state on a label goes for the
      child `c`: the product state of its key, or a list holding the entries
      of the child's lists. */
  ghost predicate LTarget(net: map<nat, State>, nterms: set<nat>, terms: set<nat>, states: map<nat, State>,
                          pm: map<(nat, nat, int), nat>, c: Item, e: nat) {
    if Keyed(nterms, c) then LKey(nterms, c) in pm && e == pm[LKey(nterms, c)]
    else e in terms && e in states && states[e] == State([], ListPayload(net, c))
  }

  /** The product state of the key `k`: a state created since `n0`, not a
      list, whose item `its[k]` is one the construction meets, has the key
      `k` and lies on the level of the state. */
  ghost predicate LPNode(net: map<nat, State>, nlevel: map<nat, int>, d: int, nterms: set<nat>, terms: set<nat>,
                         states: map<nat, State>, level: map<nat, int>,
                         pm: map<(nat, nat, int), nat>, its: map<(nat, nat, int), Item>, sub: map<nat, (nat, nat, int)>,
                         k: (nat, nat, int), n0: nat, next: nat) {
    k in pm && k in its && ItemOk(net, nlevel, its[k], d) && LKey(nterms, its[k]) == k && Keyed(nterms, its[k]) &&
    n0 <= pm[k] < next && pm[k] in states && pm[k] !in terms && pm[k] in level && level[pm[k]] == ItemLevel(nlevel, its[k]) &&
    pm[k] in sub && sub[pm[k]] == k
  }

  /** The product state of `k` has transitions on exactly the labels `ls`,
      each as `LTarget` says for the child of its item. */
  ghost predicate LPEdges(net: map<nat, State>, nterms: set<nat>, terms: set<nat>, states: map<nat, State>,
                          pm: map<(nat, nat, int), nat>, its: map<(nat, nat, int), Item>, k: (nat, nat, int), ls: set<Label>) {
    k in pm && k in its && pm[k] in states &&
    Keys(states[pm[k]].edges) == ls &&
    forall l :: l in ls ==> Get(states[pm[k]].edges, l).Some? &&
                            LTarget(net, nterms, terms, states, pm, Child(net, its[k], l).0, Get(states[pm[k]].edges, l).value)
  }

  /** A complete product state: a transition on every label of its item. */
  ghost predicate LPComplete(net: map<nat, State>, nterms: set<nat>, terms: set<nat>, states: map<nat, State>,
                             pm: map<(nat, nat, int), nat>, its: map<(nat, nat, int), Item>, k: (nat, nat, int)) {
    k in its && LPEdges(net, nterms, terms, states, pm, its, k, ItemLabels(net, its[k]))
  }

  function LQueueKeys(terms: set<nat>, queue: seq<Item>): set<(nat, nat, int)> {
    set i | 0 <= i < |queue| :: LKey(terms, queue[i])
  }

  /** The invariant of the loop of the legacy `_product_net`, as in matchpy:
      every key that is neither waiting nor current is complete, and no
      item taken off the queue so far raised `AttributeError`. */
  ghost predicate LProdInv(net: map<nat, State>, nlevel: map<nat, int>, d: int, nterms: set<nat>, terms: set<nat>,
                           states: map<nat, State>, level: map<nat, int>,
                           pm: map<(nat, nat, int), nat>, its: map<(nat, nat, int), Item>, sub: map<nat, (nat, nat, int)>,
                           queue: seq<Item>, cur: Option<Item>, n0: nat, next: nat) {
    (forall x :: x in net ==> 0 < x < n0) &&
    its.Keys == pm.Keys &&
    (forall k {:trigger Known(pm, k)} :: Known(pm, k) ==> LPNode(net, nlevel, d, nterms, terms, states, level, pm, its, sub, k, n0, next)) &&
    (forall p :: p in sub ==> n0 <= p < next) &&
    (forall i :: 0 <= i < |queue| ==> LKey(nterms, queue[i]) in pm && its[LKey(nterms, queue[i])] == queue[i] &&
                                      pm[LKey(nterms, queue[i])] in states && states[pm[LKey(nterms, queue[i])]].edges == []) &&
    (forall i, j :: 0 <= i < j < |queue| ==> LKey(nterms, queue[i]) != LKey(nterms, queue[j])) &&
    (cur.Some? ==> LKey(nterms, cur.value) in pm && its[LKey(nterms, cur.value)] == cur.value &&
                   LKey(nterms, cur.value) !in LQueueKeys(nterms, queue) && !Crash(nterms, cur.value)) &&
    (forall k {:trigger Known(pm, k)} :: Known(pm, k) && k !in LQueueKeys(nterms, queue) && (cur.None? || k != LKey(nterms, cur.value)) ==>
       LPComplete(net, nterms, terms, states, pm, its, k) && !Crash(nterms, its[k]))
  }

  /** The start: the item of the two roots is the only one, waiting. */
  lemma LPInit(net: map<nat, State>, nlevel: map<nat, int>, d: int, nterms: set<nat>, terms: set<nat>,
               states: map<nat, State>, level: map<nat, int>, it: Item, id: nat, n0: nat)
    requires forall x :: x in net ==> 0 < x < n0
    requires ItemOk(net, nlevel, it, d) && Keyed(nterms, it) && id == n0
    requires id in states && id !in terms && id in level && states[id] == State([], []) && level[id] == ItemLevel(nlevel, it)
    ensures LProdInv(net, nlevel, d, nterms, terms, states, level, map[LKey(nterms, it) := id], map[LKey(nterms, it) := it],
                     map[id := LKey(nterms, it)], [it], None, n0, id + 1)
  {
    assert [it][0] == it;
    assert LQueueKeys(nterms, [it]) == {LKey(nterms, it)};
  }

  /** A new waiting product state for the item `it`. */
  lemma LPNewNode(net: map<nat, State>, nlevel: map<nat, int>, d: int, nterms: set<nat>, terms: set<nat>,
                  states: map<nat, State>, level: map<nat, int>,
                  pm: map<(nat, nat, int), nat>, its: map<(nat, nat, int), Item>, sub: map<nat, (nat, nat, int)>,
                  queue: seq<Item>, c: Item, ls: set<Label>, n0: nat, next: nat, it: Item,
                  states': map<nat, State>, level': map<nat, int>)
    requires LProdInv(net, nlevel, d, nterms, terms, states, level, pm, its, sub, queue, Some(c), n0, next)
    requires LPEdges(net, nterms, terms, states, pm, its, LKey(nterms, c), ls)
    requires LKey(nterms, it) !in pm && Keyed(nterms, it) && ItemOk(net, nlevel, it, d)
    requires forall k :: k in states ==> k < next
    requires next !in terms && states' == states[next := State([], [])]
    requires next in level' && level' == level[next := level'[next]] && level'[next] == ItemLevel(nlevel, it)
    ensures LProdInv(net, nlevel, d, nterms, terms, states', level', pm[LKey(nterms, it) := next], its[LKey(nterms, it) := it],
                     sub[next := LKey(nterms, it)], queue + [it], Some(c), n0, next + 1)
    ensures LPEdges(net, nterms, terms, states', pm[LKey(nterms, it) := next], its[LKey(nterms, it) := it], LKey(nterms, c), ls)
  {
    var k0 := LKey(nterms, it);
    var pm', its', sub', queue' := pm[k0 := next], its[k0 := it], sub[next := k0], queue + [it];
    assert Known(pm, LKey(nterms, c));
    forall k | Known(pm', k)
      ensures LPNode(net, nlevel, d, nterms, terms, states', level', pm', its', sub', k, n0, next + 1)
    {
      if k != k0 {
        assert Known(pm, k);
        assert LPNode(net, nlevel, d, nterms, terms, states, level, pm, its, sub, k, n0, next);
      }
    }
    assert forall i :: 0 <= i < |queue| ==> queue'[i] == queue[i];
    assert queue'[|queue|] == it;
    assert LQueueKeys(nterms, queue') == LQueueKeys(nterms, queue) + {k0};
    forall i | 0 <= i < |queue'|
      ensures LKey(nterms, queue'[i]) in pm' && its'[LKey(nterms, queue'[i])] == queue'[i] &&
              pm'[LKey(nterms, queue'[i])] in states' && states'[pm'[LKey(nterms, queue'[i])]].edges == []
    {
      if i < |queue| {
        assert LKey(nterms, queue[i]) in pm;
      }
    }
    forall i, j | 0 <= i < j < |queue'| ensures LKey(nterms, queue'[i]) != LKey(nterms, queue'[j]) {
      if j == |queue| {
        assert LKey(nterms, queue[i]) in pm;
      }
    }
    forall k | Known(pm', k) && k !in LQueueKeys(nterms, queue') && k != LKey(nterms, c)
      ensures LPComplete(net, nterms, terms, states', pm', its', k) && !Crash(nterms, its'[k])
    {
      assert Known(pm, k);
      assert LPComplete(net, nterms, terms, states, pm, its, k);
      LPEdgesNew(net, nterms, terms, states, states', pm, its, k, ItemLabels(net, its[k]), k0, it, next);
    }
    LPEdgesNew(net, nterms, terms, states, states', pm, its, LKey(nterms, c), ls, k0, it, next);
  }

  /** A new key leaves the transitions of the other product states as they
      were. */
  lemma LPEdgesNew(net: map<nat, State>, nterms: set<nat>, terms: set<nat>, states: map<nat, State>, states': map<nat, State>,
                   pm: map<(nat, nat, int), nat>, its: map<(nat, nat, int), Item>, k: (nat, nat, int), ls: set<Label>,
                   k0: (nat, nat, int), it: Item, next: nat)
    requires LPEdges(net, nterms, terms, states, pm, its, k, ls) && k0 !in pm && next !in states
    requires states' == states[next := State([], [])]
    ensures LPEdges(net, nterms, terms, states', pm[k0 := next], its[k0 := it], k, ls)
  {
    forall l | l in ls
      ensures LTarget(net, nterms, terms, states', pm[k0 := next], Child(net, its[k], l).0, Get(states'[pm[k]].edges, l).value)
    {
      assert LTarget(net, nterms, terms, states, pm, Child(net, its[k], l).0, Get(states[pm[k]].edges, l).value);
    }
  }

  /** A new list with the entries `p`, at the fresh id `next`. */
  lemma LPNewList(net: map<nat, State>, nlevel: map<nat, int>, d: int, nterms: set<nat>, terms: set<nat>,
                  states: map<nat, State>, level: map<nat, int>,
                  pm: map<(nat, nat, int), nat>, its: map<(nat, nat, int), Item>, sub: map<nat, (nat, nat, int)>,
                  queue: seq<Item>, c: Item, ls: set<Label>, n0: nat, next: nat, p: seq<nat>,
                  states': map<nat, State>, level': map<nat, int>)
    requires LProdInv(net, nlevel, d, nterms, terms, states, level, pm, its, sub, queue, Some(c), n0, next)
    requires LPEdges(net, nterms, terms, states, pm, its, LKey(nterms, c), ls)
    requires forall k :: k in states ==> k < next
    requires states' == states[next := State([], p)] && Extends(level, level')
    ensures LProdInv(net, nlevel, d, nterms, terms + {next}, states', level', pm, its, sub, queue, Some(c), n0, next + 1)
    ensures LPEdges(net, nterms, terms + {next}, states', pm, its, LKey(nterms, c), ls)
  {
    assert Known(pm, LKey(nterms, c));
    forall k | Known(pm, k)
      ensures LPNode(net, nlevel, d, nterms, terms + {next}, states', level', pm, its, sub, k, n0, next + 1)
    {
      assert LPNode(net, nlevel, d, nterms, terms, states, level, pm, its, sub, k, n0, next);
    }
    forall k | Known(pm, k) && k !in LQueueKeys(nterms, queue) && k != LKey(nterms, c)
      ensures LPComplete(net, nterms, terms + {next}, states', pm, its, k)
    {
      assert LPComplete(net, nterms, terms, states, pm, its, k);
      LPEdgesList(net, nterms, terms, states, states', pm, its, k, ItemLabels(net, its[k]), next, p);
    }
    LPEdgesList(net, nterms, terms, states, states', pm, its, LKey(nterms, c), ls, next, p);
  }

  lemma LPEdgesList(net: map<nat, State>, nterms: set<nat>, terms: set<nat>, states: map<nat, State>, states': map<nat, State>,
                    pm: map<(nat, nat, int), nat>, its: map<(nat, nat, int), Item>, k: (nat, nat, int), ls: set<Label>,
                    next: nat, p: seq<nat>)
    requires LPEdges(net, nterms, terms, states, pm, its, k, ls) && next !in states
    requires states' == states[next := State([], p)]
    ensures LPEdges(net, nterms, terms + {next}, states', pm, its, k, ls)
  {
    forall l | l in ls
      ensures LTarget(net, nterms, terms + {next}, states', pm, Child(net, its[k], l).0, Get(states'[pm[k]].edges, l).value)
    {
      assert LTarget(net, nterms, terms, states, pm, Child(net, its[k], l).0, Get(states[pm[k]].edges, l).value);
    }
  }

  /** The transition of the product state of `c` on `l` to `e`, the target
      `LTarget` demands for the child. */
  lemma LPAddEdge(net: map<nat, State>, nlevel: map<nat, int>, d: int, nterms: set<nat>, terms: set<nat>,
                  states: map<nat, State>, level: map<nat, int>,
                  pm: map<(nat, nat, int), nat>, its: map<(nat, nat, int), Item>, sub: map<nat, (nat, nat, int)>,
                  queue: seq<Item>, c: Item, ls: set<Label>, n0: nat, next: nat, l: Label, e: nat, states': map<nat, State>)
    requires LProdInv(net, nlevel, d, nterms, terms, states, level, pm, its, sub, queue, Some(c), n0, next)
    requires LPEdges(net, nterms, terms, states, pm, its, LKey(nterms, c), ls)
    requires LTarget(net, nterms, terms, states, pm, Child(net, c, l).0, e)
    requires var p := pm[LKey(nterms, c)];
             states' == states[p := State(Put(states[p].edges, l, e), states[p].payload)]
    ensures LProdInv(net, nlevel, d, nterms, terms, states', level, pm, its, sub, queue, Some(c), n0, next)
    ensures LPEdges(net, nterms, terms, states', pm, its, LKey(nterms, c), ls + {l})
  {
    var kc := LKey(nterms, c);
    var p := pm[kc];
    PutFacts(states[p].edges, l, e);
    assert Known(pm, kc);
    assert p !in terms;
    forall k | Known(pm, k)
      ensures LPNode(net, nlevel, d, nterms, terms, states', level, pm, its, sub, k, n0, next)
    {
      assert LPNode(net, nlevel, d, nterms, terms, states, level, pm, its, sub, k, n0, next);
    }
    forall k | k in pm && k != kc
      ensures pm[k] in states && states'[pm[k]] == states[pm[k]]
    {
      assert Known(pm, k);
      assert sub[pm[k]] == k && sub[p] == kc;
    }
    forall i | 0 <= i < |queue| ensures states'[pm[LKey(nterms, queue[i])]].edges == [] {
      assert LKey(nterms, queue[i]) != kc;
    }
    forall k | Known(pm, k) && k !in LQueueKeys(nterms, queue) && k != kc
      ensures LPComplete(net, nterms, terms, states', pm, its, k)
    {
      assert LPComplete(net, nterms, terms, states, pm, its, k);
      forall l' | l' in ItemLabels(net, its[k])
        ensures LTarget(net, nterms, terms, states', pm, Child(net, its[k], l').0, Get(states'[pm[k]].edges, l').value)
      {
        assert LTarget(net, nterms, terms, states, pm, Child(net, its[k], l').0, Get(states[pm[k]].edges, l').value);
      }
    }
    assert its[kc] == c;
    LPEdgesGrow(net, nterms, terms, states, pm, its, kc, ls, l, e, states');
  }

  /** A transition on `l` to the right target, put on the state of `k`
      that is not a list, extends its `LPEdges` by `l`. */
  lemma LPEdgesGrow(net: map<nat, State>, nterms: set<nat>, terms: set<nat>, states: map<nat, State>,
                    pm: map<(nat, nat, int), nat>, its: map<(nat, nat, int), Item>, k: (nat, nat, int), ls: set<Label>,
                    l: Label, e: nat, states': map<nat, State>)
    requires LPEdges(net, nterms, terms, states, pm, its, k, ls) && pm[k] !in terms
    requires LTarget(net, nterms, terms, states, pm, Child(net, its[k], l).0, e)
    requires states' == states[pm[k] := State(Put(states[pm[k]].edges, l, e), states[pm[k]].payload)]
    ensures LPEdges(net, nterms, terms, states', pm, its, k, ls + {l})
  {
    var p := pm[k];
    PutFacts(states[p].edges, l, e);
    forall l' | l' in ls + {l}
      ensures LTarget(net, nterms, terms, states', pm, Child(net, its[k], l').0, Get(states'[p].edges, l').value)
    {
      if l' != l {
        assert LTarget(net, nterms, terms, states, pm, Child(net, its[k], l').0, Get(states[p].edges, l').value);
      }
    }
  }

  /** Taking the first item off the queue makes it the current one, with
      no transitions yet, when it does not raise `AttributeError`. */
  lemma LPPop(net: map<nat, State>, nlevel: map<nat, int>, d: int, nterms: set<nat>, terms: set<nat>,
              states: map<nat, State>, level: map<nat, int>,
              pm: map<(nat, nat, int), nat>, its: map<(nat, nat, int), Item>, sub: map<nat, (nat, nat, int)>,
              queue: seq<Item>, n0: nat, next: nat)
    requires LProdInv(net, nlevel, d, nterms, terms, states, level, pm, its, sub, queue, None, n0, next)
    requires queue != [] && !Crash(nterms, queue[0])
    ensures LProdInv(net, nlevel, d, nterms, terms, states, level, pm, its, sub, queue[1..], Some(queue[0]), n0, next)
    ensures LPEdges(net, nterms, terms, states, pm, its, LKey(nterms, queue[0]), {})
  {
    var c := queue[0];
    var q := queue[1..];
    assert forall i :: 0 <= i < |q| ==> q[i] == queue[i + 1];
    assert LQueueKeys(nterms, queue) == LQueueKeys(nterms, q) + {LKey(nterms, c)} by {
      forall k | k in LQueueKeys(nterms, queue) ensures k in LQueueKeys(nterms, q) + {LKey(nterms, c)} {
        var i :| 0 <= i < |queue| && LKey(nterms, queue[i]) == k;
        if i > 0 {
          assert LKey(nterms, q[i - 1]) == k;
        }
      }
    }
    assert LKey(nterms, c) !in LQueueKeys(nterms, q);
    assert states[pm[LKey(nterms, c)]].edges == [];
  }

  lemma LPFinish(net: map<nat, State>, nlevel: map<nat, int>, d: int, nterms: set<nat>, terms: set<nat>,
                 states: map<nat, State>, level: map<nat, int>,
                 pm: map<(nat, nat, int), nat>, its: map<(nat, nat, int), Item>, sub: map<nat, (nat, nat, int)>,
                 queue: seq<Item>, c: Item, n0: nat, next: nat)
    requires LProdInv(net, nlevel, d, nterms, terms, states, level, pm, its, sub, queue, Some(c), n0, next)
    requires LPEdges(net, nterms, terms, states, pm, its, LKey(nterms, c), ItemLabels(net, c))
    ensures LProdInv(net, nlevel, d, nterms, terms, states, level, pm, its, sub, queue, None, n0, next)
  {
  }

  /** With the queue empty, every product state is complete, stores an
      item of its key that raised no `AttributeError`, and lies on the level
      of that item. */
  lemma LPResult(net: map<nat, State>, nlevel: map<nat, int>, d: int, nterms: set<nat>, terms: set<nat>,
                 states: map<nat, State>, level: map<nat, int>,
                 pm: map<(nat, nat, int), nat>, its: map<(nat, nat, int), Item>, sub: map<nat, (nat, nat, int)>, n0: nat, next: nat)
    requires LProdInv(net, nlevel, d, nterms, terms, states, level, pm, its, sub, [], None, n0, next)
    ensures forall k :: k in pm ==> LPComplete(net, nterms, terms, states, pm, its, k) && LKey(nterms, its[k]) == k && !Crash(nterms, its[k])
    ensures forall k :: k in pm ==> n0 <= pm[k] && pm[k] in states && pm[k] !in terms && pm[k] in level &&
                                    level[pm[k]] == ItemLevel(nlevel, its[k])
  {
    forall k | k in pm
      ensures LPComplete(net, nterms, terms, states, pm, its, k) && !Crash(nterms, its[k]) &&
              LPNode(net, nlevel, d, nterms, terms, states, level, pm, its, sub, k, n0, next)
    {
      assert Known(pm, k);
    }
  }

  /** Every key that gets a product state lies in the finite `KeySpace`. */
  lemma LPBound(net: map<nat, State>, nlevel: map<nat, int>, d: int, nterms: set<nat>, terms: set<nat>,
                states: map<nat, State>, level: map<nat, int>,
                pm: map<(nat, nat, int), nat>, its: map<(nat, nat, int), Item>, sub: map<nat, (nat, nat, int)>,
                queue: seq<Item>, cur: Option<Item>, n0: nat, next: nat)
    requires LProdInv(net, nlevel, d, nterms, terms, states, level, pm, its, sub, queue, cur, n0, next)
    ensures pm.Keys <= KeySpace(net.Keys, d) && |pm| <= |KeySpace(net.Keys, d)|
  {
    forall k | k in pm ensures k in KeySpace(net.Keys, d) {
      assert Known(pm, k);
      LKeyInSpace(net, nlevel, nterms, its[k], d);
    }
    KeyCard(pm.Keys, KeySpace(net.Keys, d));
  }

  /** Every product state stores an item with its own key. */
  lemma LPKeys(net: map<nat, State>, nlevel: map<nat, int>, d: int, nterms: set<nat>, terms: set<nat>,
               states: map<nat, State>, level: map<nat, int>,
               pm: map<(nat, nat, int), nat>, its: map<(nat, nat, int), Item>, sub: map<nat, (nat, nat, int)>,
               queue: seq<Item>, cur: Option<Item>, n0: nat, next: nat)
    requires LProdInv(net, nlevel, d, nterms, terms, states, level, pm, its, sub, queue, cur, n0, next)
    ensures its.Keys == pm.Keys && forall k :: k in pm ==> LKey(nterms, its[k]) == k
  {
    forall k | k in pm ensures LKey(nterms, its[k]) == k {
      assert Known(pm, k);
    }
  }

  /** An item at the head of the queue that raises `AttributeError` is
      stored under its key. */
  lemma LPCrashed(net: map<nat, State>, nlevel: map<nat, int>, d: int, nterms: set<nat>, terms: set<nat>,
                  states: map<nat, State>, level: map<nat, int>,
                  pm: map<(nat, nat, int), nat>, its: map<(nat, nat, int), Item>, sub: map<nat, (nat, nat, int)>,
                  queue: seq<Item>, n0: nat, next: nat)
    requires LProdInv(net, nlevel, d, nterms, terms, states, level, pm, its, sub, queue, None, n0, next)
    requires queue != [] && Crash(nterms, queue[0])
    ensures LKey(nterms, queue[0]) in pm && Crash(nterms, its[LKey(nterms, queue[0])])
  {
  }

  /** The item stored under the key of two states that are not lists, at
      depth 0, is the item of those two states. */
  lemma LPRootItem(net: map<nat, State>, nlevel: map<nat, int>, d: int, nterms: set<nat>, terms: set<nat>,
                   states: map<nat, State>, level: map<nat, int>,
                   pm: map<(nat, nat, int), nat>, its: map<(nat, nat, int), Item>, sub: map<nat, (nat, nat, int)>,
                   queue: seq<Item>, cur: Option<Item>, n0: nat, next: nat, s1: nat, s2: nat)
    requires LProdInv(net, nlevel, d, nterms, terms, states, level, pm, its, sub, queue, cur, n0, next)
    requires (s1, s2, 0) in pm && 0 < s1 && 0 < s2
    ensures its[(s1, s2, 0)] == Item(Some(s1), Some(s2), 0, 0)
  {
    assert Known(pm, (s1, s2, 0));
  }
}
