/** The queue items of `_product_net` in matchpy/matching/syntactic.py
    (`_StateQueueItem`) and the step from an item to its child on a label.
    An item pairs a state of each of the two nets (or `None` where a net has
    failed), the operation nesting `depth` that one net still has to read
    while the other sits on a wildcard, and `fixed`, the net (1 or 2) that
    sits on the wildcard, or 0. The lemmas show that the items the
    construction meets are determined by their key `(id1, id2, depth)`, lie
    in a finite set, and are graded like the nets. */
module ProductNets {
  import opened Terms
  import opened Sequences
  import opened Transitions

  datatype Item = Item(s1: Option<nat>, s2: Option<nat>, depth: int, fixed: nat)

  /** `state.id`, or 0 for `None`. */
  function Id(o: Option<nat>): nat {
    if o.Some? then o.value else 0
  }

  /** The key `(id1, id2, depth)` under which the product state of an item
      is stored. */
  function Key(it: Item): (nat, nat, int) {
    (Id(it.s1), Id(it.s2), it.depth)
  }

  function StateKeys(states: map<nat, State>, o: Option<nat>): set<Label> {
    if o.Some? && o.value in states then Keys(states[o.value].edges) else {}
  }

  function PayloadOf(states: map<nat, State>, o: Option<nat>): seq<nat> {
    if o.Some? && o.value in states then states[o.value].payload else []
  }

  /** `state[Wildcard]` for the state that sits on a wildcard. */
  function WildTarget(states: map<nat, State>, o: Option<nat>): Option<nat> {
    if o.Some? && o.value in states then Get(states[o.value].edges, AnyWild) else None
  }

  /** `_StateQueueItem.labels`: the labels of both states, except the one
      that sits on a wildcard; then `Wildcard`, and `OPERATION_END` when the
      other net has failed. */
  function ItemLabels(states: map<nat, State>, it: Item): (r: set<Label>)
    ensures it.fixed != 1 ==> StateKeys(states, it.s1) <= r
    ensures it.fixed != 2 ==> StateKeys(states, it.s2) <= r
    ensures it.fixed != 0 ==> AnyWild in r
    ensures (it.fixed == 1 && it.s2.None?) || (it.fixed == 2 && it.s1.None?) ==> End in r
    ensures forall l :: l in r ==> (l in StateKeys(states, it.s1) && it.fixed != 1) || (l in StateKeys(states, it.s2) && it.fixed != 2) ||
                                   (it.fixed != 0 && l == AnyWild) ||
                                   (l == End && ((it.fixed == 1 && it.s2.None?) || (it.fixed == 2 && it.s1.None?)))
  {
    (if it.s1.Some? && it.fixed != 1 then StateKeys(states, it.s1) else {}) +
    (if it.s2.Some? && it.fixed != 2 then StateKeys(states, it.s2) else {}) +
    (if it.fixed != 0 then
       (if (it.fixed == 1 && it.s2.None?) || (it.fixed == 2 && it.s1.None?) then {End} else {}) + {AnyWild}
     else {})
  }

  /** `_get_next_state`: the state a net goes to on `l`, and whether it got
      there by falling back on its `Wildcard` transition. A net that sits on
      a wildcard stays where it is. */
  function NextState(states: map<nat, State>, o: Option<nat>, l: Label, fixed: bool): (Option<nat>, bool) {
    if fixed then (o, false)
    else if o.None? || o.value !in states then (None, false)
    else
      var es := states[o.value].edges;
      if Get(es, l).Some? then (Get(es, l), false)
      else if l == End then (None, false)
      else if l.Sym? && SymbolWildcardKey(es, l).Some? then (Get(es, SymbolWildcardKey(es, l).value), false)
      else if Get(es, AnyWild).Some? then (Get(es, AnyWild), true)
      else (None, false)
  }

  /** The child of an item on `l` in `_product_net`, with the payload of
      its product state. On an operation head a net without a transition on
      it falls back on `Wildcard` and sits there (`fixed`) at depth 1; while
      one net sits, the depth counts the heads and `OPERATION_END`s the other
      reads, and back at depth 0 the sitting net moves on along its
      `Wildcard` transition. */
  function Child(states: map<nat, State>, cur: Item, l: Label): (Item, seq<nat>) {
    var (t1, w1) := NextState(states, cur.s1, l, cur.fixed == 1);
    var (t2, w2) := NextState(states, cur.s2, l, cur.fixed == 2);
    var pay := PayloadOf(states, t1) + PayloadOf(states, t2);
    if l.Head? then
      if cur.fixed != 0 then (Item(t1, t2, cur.depth + 1, cur.fixed), pay)
      else if w1 then (Item(cur.s1, t2, 1, 1), PayloadOf(states, t2) + PayloadOf(states, cur.s1))
      else if w2 then (Item(t1, cur.s2, 1, 2), PayloadOf(states, t1) + PayloadOf(states, cur.s2))
      else (Item(t1, t2, cur.depth, cur.fixed), pay)
    else if l == End && cur.fixed != 0 then
      if cur.depth - 1 == 0 then
        if cur.fixed == 1 then
          var w := WildTarget(states, t1);
          (Item(w, t2, 0, 0), pay + PayloadOf(states, w))
        else
          var w := WildTarget(states, t2);
          (Item(t1, w, 0, 0), pay + PayloadOf(states, w))
      else (Item(t1, t2, cur.depth - 1, cur.fixed), pay)
    else (Item(t1, t2, cur.depth, cur.fixed), pay)
  }

  /** The items the construction meets: states of the nets; `fixed` is 0
      exactly at depth 0; a net that sits on a wildcard has a `Wildcard`
      transition; the other net, when it has not failed, is `depth` levels
      below the sitting one, and with neither sitting both are on one level;
      the depth is at most `d`. */
  ghost predicate ItemOk(states: map<nat, State>, level: map<nat, int>, it: Item, d: int) {
    it.fixed <= 2 && (it.fixed == 0 <==> it.depth == 0) && 0 <= it.depth <= d &&
    (it.s1.Some? ==> it.s1.value in states && it.s1.value in level) &&
    (it.s2.Some? ==> it.s2.value in states && it.s2.value in level) &&
    (it.fixed == 0 ==> it.s1.Some? || it.s2.Some?) &&
    (it.fixed == 0 && it.s1.Some? && it.s2.Some? ==> level[it.s1.value] == level[it.s2.value]) &&
    (it.fixed == 1 ==> it.s1.Some? && AnyWild in Keys(states[it.s1.value].edges) &&
                       (it.s2.Some? ==> level[it.s2.value] == level[it.s1.value] + it.depth)) &&
    (it.fixed == 2 ==> it.s2.Some? && AnyWild in Keys(states[it.s2.value].edges) &&
                       (it.s1.Some? ==> level[it.s1.value] == level[it.s2.value] + it.depth))
  }

  /** The nesting level of the product state of an item. */
  ghost function ItemLevel(level: map<nat, int>, it: Item): int {
    if it.fixed == 1 && it.s1.Some? && it.s1.value in level then level[it.s1.value] + it.depth
    else if it.fixed == 2 && it.s2.Some? && it.s2.value in level then level[it.s2.value] + it.depth
    else if it.s1.Some? && it.s1.value in level then level[it.s1.value]
    else if it.s2.Some? && it.s2.value in level then level[it.s2.value]
    else 0
  }

  /** No two levels of the net differ by more than `d`. */
  ghost predicate Spread(states: map<nat, State>, level: map<nat, int>, d: int) {
    forall a, b :: a in states && b in states && a in level && b in level ==> level[a] - level[b] <= d
  }

  ghost function MaxLevel(level: map<nat, int>, ks: set<nat>): (r: int)
    requires ks <= level.Keys
    ensures forall k :: k in ks ==> level[k] <= r
    decreases ks
  {
    if ks == {} then 0
    else
      var x :| x in ks;
      var m := MaxLevel(level, ks - {x});
      if level[x] > m then level[x] else m
  }

  ghost function MinLevel(level: map<nat, int>, ks: set<nat>): (r: int)
    requires ks <= level.Keys
    ensures forall k :: k in ks ==> r <= level[k]
    decreases ks
  {
    if ks == {} then 0
    else
      var x :| x in ks;
      var m := MinLevel(level, ks - {x});
      if level[x] < m then level[x] else m
  }

  /** Every net with levels has a bound on the difference of its levels. */
  lemma SpreadExists(states: map<nat, State>, level: map<nat, int>)
    requires states.Keys <= level.Keys
    ensures Spread(states, level, MaxLevel(level, states.Keys) - MinLevel(level, states.Keys))
  {
  }

  /** A state reached by `_get_next_state` without sitting is a state of the
      net one nesting step `Delta(l)` further, unless it fell back on
      `Wildcard` on an operation head. */
  lemma NextLevel(states: map<nat, State>, level: map<nat, int>, o: Option<nat>, l: Label)
    requires Closed(states) && Graded(states, level)
    requires o.Some? ==> o.value in states
    ensures var (t, w) := NextState(states, o, l, false);
            t.Some? ==> o.Some? && t.value in states && t.value in level &&
                        level[t.value] == level[o.value] + (if w then 0 else Delta(l))
    ensures var (t, w) := NextState(states, o, l, false);
            (w ==> l !in StateKeys(states, o) && t.Some? && l != End) &&
            (l in StateKeys(states, o) ==> t == Get(states[o.value].edges, l) && !w) &&
            (o.Some? && l !in StateKeys(states, o) && !w && t.Some? ==> l.Sym?)
  {
    if o.Some? {
      var es := states[o.value].edges;
      if Get(es, l).Some? {
        assert (l, Get(es, l).value) in es;
      } else if l != End && l.Sym? && SymbolWildcardKey(es, l).Some? {
        var k := SymbolWildcardKey(es, l).value;
        assert (k, Get(es, k).value) in es;
        assert Delta(k) == 0 == Delta(l);
      } else if l != End && Get(es, AnyWild).Some? {
        assert (AnyWild, Get(es, AnyWild).value) in es;
      }
    }
  }

  /** The `Wildcard` target of a state is a state of the net on its level. */
  lemma WildLevel(states: map<nat, State>, level: map<nat, int>, o: Option<nat>)
    requires Closed(states) && Graded(states, level)
    requires o.Some? && o.value in states && AnyWild in Keys(states[o.value].edges)
    ensures WildTarget(states, o).Some? && WildTarget(states, o).value in states && WildTarget(states, o).value in level
    ensures level[WildTarget(states, o).value] == level[o.value]
  {
    var es := states[o.value].edges;
    assert (AnyWild, Get(es, AnyWild).value) in es;
  }

  /** The child of an item the construction meets, on one of its labels,
      is again such an item, one nesting step `Delta(l)` further. */
  lemma ChildOk(states: map<nat, State>, level: map<nat, int>, cur: Item, l: Label, d: int)
    requires Closed(states) && Graded(states, level) && Spread(states, level, d)
    requires ItemOk(states, level, cur, d) && l in ItemLabels(states, cur)
    ensures ItemOk(states, level, Child(states, cur, l).0, d)
    ensures ItemLevel(level, Child(states, cur, l).0) == ItemLevel(level, cur) + Delta(l)
  {
    if cur.fixed == 0 {
      ChildFree(states, level, cur, l, d);
    } else if cur.fixed == 1 {
      ChildSitting1(states, level, cur, l, d);
    } else {
      ChildSitting2(states, level, cur, l, d);
    }
  }

  lemma ChildFree(states: map<nat, State>, level: map<nat, int>, cur: Item, l: Label, d: int)
    requires Closed(states) && Graded(states, level) && Spread(states, level, d)
    requires ItemOk(states, level, cur, d) && l in ItemLabels(states, cur) && cur.fixed == 0
    ensures ItemOk(states, level, Child(states, cur, l).0, d)
    ensures ItemLevel(level, Child(states, cur, l).0) == ItemLevel(level, cur) + Delta(l)
  {
    var (t1, w1) := NextState(states, cur.s1, l, false);
    var (t2, w2) := NextState(states, cur.s2, l, false);
    NextLevel(states, level, cur.s1, l);
    NextLevel(states, level, cur.s2, l);
    assert l in StateKeys(states, cur.s1) || l in StateKeys(states, cur.s2);
    var c := Child(states, cur, l).0;
    if l.Head? && w1 {
      assert l in StateKeys(states, cur.s2) && c == Item(cur.s1, t2, 1, 1);
      assert level[t2.value] - level[cur.s1.value] <= d;
    } else if l.Head? && w2 {
      assert l in StateKeys(states, cur.s1) && c == Item(t1, cur.s2, 1, 2);
      assert level[t1.value] - level[cur.s2.value] <= d;
    } else {
      assert c == Item(t1, t2, 0, 0);
      assert t1.Some? || t2.Some?;
    }
  }

  lemma ChildSitting1(states: map<nat, State>, level: map<nat, int>, cur: Item, l: Label, d: int)
    requires Closed(states) && Graded(states, level) && Spread(states, level, d)
    requires ItemOk(states, level, cur, d) && l in ItemLabels(states, cur) && cur.fixed == 1
    ensures ItemOk(states, level, Child(states, cur, l).0, d)
    ensures ItemLevel(level, Child(states, cur, l).0) == ItemLevel(level, cur) + Delta(l)
  {
    var (t2, w2) := NextState(states, cur.s2, l, false);
    NextLevel(states, level, cur.s2, l);
    WildLevel(states, level, cur.s1);
    assert !w2;
    assert t2.Some? ==> level[t2.value] == level[cur.s1.value] + cur.depth + Delta(l);
    assert l.Head? ==> t2.Some?;
    var c := Child(states, cur, l).0;
    if l.Head? {
      assert c == Item(cur.s1, t2, cur.depth + 1, 1);
      assert level[t2.value] - level[cur.s1.value] <= d;
    } else if l == End && cur.depth - 1 == 0 {
      assert c == Item(WildTarget(states, cur.s1), t2, 0, 0);
    } else if l == End {
      assert c == Item(cur.s1, t2, cur.depth - 1, 1);
    } else {
      assert c == Item(cur.s1, t2, cur.depth, 1);
    }
  }

  lemma ChildSitting2(states: map<nat, State>, level: map<nat, int>, cur: Item, l: Label, d: int)
    requires Closed(states) && Graded(states, level) && Spread(states, level, d)
    requires ItemOk(states, level, cur, d) && l in ItemLabels(states, cur) && cur.fixed == 2
    ensures ItemOk(states, level, Child(states, cur, l).0, d)
    ensures ItemLevel(level, Child(states, cur, l).0) == ItemLevel(level, cur) + Delta(l)
  {
    var (t1, w1) := NextState(states, cur.s1, l, false);
    NextLevel(states, level, cur.s1, l);
    WildLevel(states, level, cur.s2);
    assert !w1;
    assert t1.Some? ==> level[t1.value] == level[cur.s2.value] + cur.depth + Delta(l);
    assert l.Head? ==> t1.Some?;
    var c := Child(states, cur, l).0;
    if l.Head? {
      assert c == Item(t1, cur.s2, cur.depth + 1, 2);
      assert level[t1.value] - level[cur.s2.value] <= d;
    } else if l == End && cur.depth - 1 == 0 {
      assert c == Item(t1, WildTarget(states, cur.s2), 0, 0);
    } else if l == End {
      assert c == Item(t1, cur.s2, cur.depth - 1, 2);
    } else {
      assert c == Item(t1, cur.s2, cur.depth, 2);
    }
  }

  /** Two items the construction meets with the same key are the same
      item: ids are positive, and at a positive depth the levels tell which
      net sits on a wildcard. */
  lemma KeyUnique(states: map<nat, State>, level: map<nat, int>, a: Item, b: Item, d: int)
    requires forall k :: k in states ==> 0 < k
    requires ItemOk(states, level, a, d) && ItemOk(states, level, b, d) && Key(a) == Key(b)
    ensures a == b
  {
    assert a.s1 == b.s1 && a.s2 == b.s2 && a.depth == b.depth;
  }

  /** The keys of the items over the states of a net, up to depth `d`. */
  function KeySpace(ids: set<nat>, d: int): set<(nat, nat, int)> {
    set a, b, e | a in ids + {0} && b in ids + {0} && 0 <= e <= d :: (a, b, e)
  }

  lemma KeyInSpace(states: map<nat, State>, level: map<nat, int>, it: Item, d: int)
    requires ItemOk(states, level, it, d)
    ensures Key(it) in KeySpace(states.Keys, d)
  {
    assert Id(it.s1) in states.Keys + {0} && Id(it.s2) in states.Keys + {0};
  }

  /** The keys of the items waiting in the queue. */
  function QueueKeys(queue: seq<Item>): set<(nat, nat, int)> {
    set i | 0 <= i < |queue| :: Key(queue[i])
  }

  /** The payloads of the two states of an item. */
  function ItemPayloads(states: map<nat, State>, it: Item): set<nat> {
    Elems(PayloadOf(states, it.s1)) + Elems(PayloadOf(states, it.s2))
  }

  /** The payload a child's product state gets lists pattern indices of the
      nets, and every payload of its two states when neither sits on a
      wildcard. */
  lemma ChildPayload(states: map<nat, State>, cur: Item, l: Label)
    ensures Elems(Child(states, cur, l).1) <= AllPayloads(states)
    ensures Child(states, cur, l).0.fixed == 0 ==> ItemPayloads(states, Child(states, cur, l).0) <= Elems(Child(states, cur, l).1)
  {
    var (t1, w1) := NextState(states, cur.s1, l, cur.fixed == 1);
    var (t2, w2) := NextState(states, cur.s2, l, cur.fixed == 2);
    var w := if cur.fixed == 1 then WildTarget(states, t1) else WildTarget(states, t2);
    forall o | o in [t1, t2, w, cur.s1, cur.s2] ensures Elems(PayloadOf(states, o)) <= AllPayloads(states) {
      if o.Some? && o.value in states {
        assert forall x :: x in states[o.value].payload ==> x in AllPayloads(states);
      }
    }
  }

  /** `k` has a product state. The invariant's quantifiers over keys are
      instantiated only where a proof names `Known(pm, k)`. */
  ghost predicate Known(pm: map<(nat, nat, int), nat>, k: (nat, nat, int)) {
    k in pm
  }

  /** The product state of the key `k`: a state created since `n0` whose
      item `its[k]` is one the construction meets, whose level is that of
      the item, and whose payload comes from the payloads of the net. */
  ghost predicate PNode(net: map<nat, State>, nlevel: map<nat, int>, d: int, states: map<nat, State>, level: map<nat, int>,
                        pm: map<(nat, nat, int), nat>, its: map<(nat, nat, int), Item>, sub: map<nat, (nat, nat, int)>,
                        k: (nat, nat, int), n0: nat, next: nat) {
    k in pm && k in its && ItemOk(net, nlevel, its[k], d) && Key(its[k]) == k &&
    n0 <= pm[k] < next && pm[k] in states && pm[k] in level && level[pm[k]] == ItemLevel(nlevel, its[k]) &&
    pm[k] in sub && sub[pm[k]] == k && Elems(states[pm[k]].payload) <= AllPayloads(net) &&
    (pm[k] != n0 && its[k].fixed == 0 ==> ItemPayloads(net, its[k]) <= Elems(states[pm[k]].payload))
  }

  /** The product state of `k` has transitions on exactly the labels `ls`,
      each to the product state of the child of its item on that label. */
  ghost predicate PEdges(net: map<nat, State>, states: map<nat, State>, pm: map<(nat, nat, int), nat>,
                         its: map<(nat, nat, int), Item>, k: (nat, nat, int), ls: set<Label>) {
    k in pm && k in its && pm[k] in states &&
    Keys(states[pm[k]].edges) == ls &&
    forall l :: l in ls ==> Key(Child(net, its[k], l).0) in pm && Key(Child(net, its[k], l).0) in its && its[Key(Child(net, its[k], l).0)] == Child(net, its[k], l).0 &&
                            Get(states[pm[k]].edges, l) == Some(pm[Key(Child(net, its[k], l).0)])
  }

  /** A complete product state: a transition on every label of its item. */
  ghost predicate PComplete(net: map<nat, State>, states: map<nat, State>, pm: map<(nat, nat, int), nat>,
                            its: map<(nat, nat, int), Item>, k: (nat, nat, int)) {
    k in its && PEdges(net, states, pm, its, k, ItemLabels(net, its[k]))
  }

  /** The invariant of the loop of `_product_net`. `cur` is the item whose
      product state is being given its transitions: every other key that is
      not waiting in the queue is complete, and every waiting one has no
      transitions yet. */
  ghost predicate ProdInv(net: map<nat, State>, nlevel: map<nat, int>, d: int, states: map<nat, State>, level: map<nat, int>,
                          pm: map<(nat, nat, int), nat>, its: map<(nat, nat, int), Item>, sub: map<nat, (nat, nat, int)>,
                          queue: seq<Item>, cur: Option<Item>, n0: nat, next: nat) {
    (forall x :: x in net ==> 0 < x < n0) &&
    its.Keys == pm.Keys &&
    (forall k {:trigger Known(pm, k)} :: Known(pm, k) ==> PNode(net, nlevel, d, states, level, pm, its, sub, k, n0, next)) &&
    (forall p :: p in sub ==> n0 <= p < next) &&
    (forall i :: 0 <= i < |queue| ==> Key(queue[i]) in pm && its[Key(queue[i])] == queue[i] &&
                                      pm[Key(queue[i])] in states && states[pm[Key(queue[i])]].edges == []) &&
    (forall i, j :: 0 <= i < j < |queue| ==> Key(queue[i]) != Key(queue[j])) &&
    (cur.Some? ==> Key(cur.value) in pm && its[Key(cur.value)] == cur.value && Key(cur.value) !in QueueKeys(queue)) &&
    (forall k {:trigger Known(pm, k)} :: Known(pm, k) && k !in QueueKeys(queue) && (cur.None? || k != Key(cur.value)) ==>
       PComplete(net, states, pm, its, k))
  }

  /** The start of `_product_net`: the root item is the only one, waiting
      in the queue. */
  lemma PInit(net: map<nat, State>, nlevel: map<nat, int>, d: int, states: map<nat, State>, level: map<nat, int>,
              it: Item, id: nat, n0: nat)
    requires forall x :: x in net ==> 0 < x < n0
    requires ItemOk(net, nlevel, it, d) && id == n0
    requires id in states && id in level && states[id] == State([], []) && level[id] == ItemLevel(nlevel, it)
    ensures ProdInv(net, nlevel, d, states, level, map[Key(it) := id], map[Key(it) := it], map[id := Key(it)], [it], None, n0, id + 1)
  {
    assert [it][0] == it;
    assert QueueKeys([it]) == {Key(it)};
  }

  /** A new waiting product state for the item `it`. */
  lemma PNewNode(net: map<nat, State>, nlevel: map<nat, int>, d: int, states: map<nat, State>, level: map<nat, int>,
                 pm: map<(nat, nat, int), nat>, its: map<(nat, nat, int), Item>, sub: map<nat, (nat, nat, int)>,
                 queue: seq<Item>, c: Item, ls: set<Label>, n0: nat, next: nat, it: Item, states': map<nat, State>, level': map<nat, int>)
    requires ProdInv(net, nlevel, d, states, level, pm, its, sub, queue, Some(c), n0, next)
    requires PEdges(net, states, pm, its, Key(c), ls)
    requires Key(it) !in pm && ItemOk(net, nlevel, it, d)
    requires forall k :: k in states ==> k < next
    requires next in states' && states' == states[next := states'[next]] && states'[next].edges == []
    requires Elems(states'[next].payload) <= AllPayloads(net)
    requires it.fixed == 0 ==> ItemPayloads(net, it) <= Elems(states'[next].payload)
    requires next in level' && level' == level[next := level'[next]] && level'[next] == ItemLevel(nlevel, it)
    ensures ProdInv(net, nlevel, d, states', level', pm[Key(it) := next], its[Key(it) := it], sub[next := Key(it)],
                    queue + [it], Some(c), n0, next + 1)
    ensures PEdges(net, states', pm[Key(it) := next], its[Key(it) := it], Key(c), ls)
  {
    var k0 := Key(it);
    var pm', its', sub', queue' := pm[k0 := next], its[k0 := it], sub[next := k0], queue + [it];
    assert Known(pm, Key(c));
    assert n0 <= pm[Key(c)] < next;
    forall k | Known(pm', k)
      ensures PNode(net, nlevel, d, states', level', pm', its', sub', k, n0, next + 1)
    {
      if k != k0 {
        assert Known(pm, k);
        assert PNode(net, nlevel, d, states, level, pm, its, sub, k, n0, next);
      }
    }
    assert forall i :: 0 <= i < |queue| ==> queue'[i] == queue[i];
    assert QueueKeys(queue') == QueueKeys(queue) + {k0} by {
      assert queue'[|queue|] == it;
    }
    forall k | Known(pm', k) && k !in QueueKeys(queue') && k != Key(c)
      ensures PComplete(net, states', pm', its', k)
    {
      assert Known(pm, k);
      assert PComplete(net, states, pm, its, k);
      PEdgesKeep(net, states, states', pm, its, k, ItemLabels(net, its[k]), k0, it, next);
    }
    PEdgesKeep(net, states, states', pm, its, Key(c), ls, k0, it, next);
  }

  /** A new key leaves the transitions of the other product states as they
      were. */
  lemma PEdgesKeep(net: map<nat, State>, states: map<nat, State>, states': map<nat, State>,
                   pm: map<(nat, nat, int), nat>, its: map<(nat, nat, int), Item>, k: (nat, nat, int), ls: set<Label>,
                   k0: (nat, nat, int), it: Item, next: nat)
    requires PEdges(net, states, pm, its, k, ls) && k0 !in pm && pm[k] in states'
    requires states'[pm[k]] == states[pm[k]]
    ensures PEdges(net, states', pm[k0 := next], its[k0 := it], k, ls)
  {
  }

  /** The transition of the product state of `c` on `l` to the product
      state of its child. */
  lemma PAddEdge(net: map<nat, State>, nlevel: map<nat, int>, d: int, states: map<nat, State>, level: map<nat, int>,
                 pm: map<(nat, nat, int), nat>, its: map<(nat, nat, int), Item>, sub: map<nat, (nat, nat, int)>,
                 queue: seq<Item>, c: Item, ls: set<Label>, n0: nat, next: nat, l: Label, states': map<nat, State>)
    requires ProdInv(net, nlevel, d, states, level, pm, its, sub, queue, Some(c), n0, next)
    requires PEdges(net, states, pm, its, Key(c), ls)
    requires Key(Child(net, c, l).0) in pm && its[Key(Child(net, c, l).0)] == Child(net, c, l).0
    requires states' == states[pm[Key(c)] := State(Put(states[pm[Key(c)]].edges, l, pm[Key(Child(net, c, l).0)]), states[pm[Key(c)]].payload)]
    ensures ProdInv(net, nlevel, d, states', level, pm, its, sub, queue, Some(c), n0, next)
    ensures PEdges(net, states', pm, its, Key(c), ls + {l})
  {
    var p := pm[Key(c)];
    var e := pm[Key(Child(net, c, l).0)];
    PutFacts(states[p].edges, l, e);
    assert Known(pm, Key(c));
    forall k | Known(pm, k)
      ensures PNode(net, nlevel, d, states', level, pm, its, sub, k, n0, next)
    {
      assert PNode(net, nlevel, d, states, level, pm, its, sub, k, n0, next);
    }
    forall k | k in pm && k != Key(c)
      ensures pm[k] in states && states'[pm[k]] == states[pm[k]]
    {
      assert Known(pm, k);
      assert sub[pm[k]] == k && sub[p] == Key(c);
    }
    forall i | 0 <= i < |queue| ensures states'[pm[Key(queue[i])]].edges == [] {
      assert Key(queue[i]) != Key(c);
    }
    forall k | Known(pm, k) && k !in QueueKeys(queue) && k != Key(c)
      ensures PComplete(net, states', pm, its, k)
    {
      assert PComplete(net, states, pm, its, k);
    }
  }

  /** Taking the first item off the queue makes it the current one, with
      no transitions yet. */
  lemma PPop(net: map<nat, State>, nlevel: map<nat, int>, d: int, states: map<nat, State>, level: map<nat, int>,
             pm: map<(nat, nat, int), nat>, its: map<(nat, nat, int), Item>, sub: map<nat, (nat, nat, int)>,
             queue: seq<Item>, n0: nat, next: nat)
    requires ProdInv(net, nlevel, d, states, level, pm, its, sub, queue, None, n0, next) && queue != []
    ensures ProdInv(net, nlevel, d, states, level, pm, its, sub, queue[1..], Some(queue[0]), n0, next)
    ensures PEdges(net, states, pm, its, Key(queue[0]), {})
  {
    var c := queue[0];
    var q := queue[1..];
    assert forall i :: 0 <= i < |q| ==> q[i] == queue[i + 1];
    assert QueueKeys(queue) == QueueKeys(q) + {Key(c)} by {
      forall k | k in QueueKeys(queue) ensures k in QueueKeys(q) + {Key(c)} {
        var i :| 0 <= i < |queue| && Key(queue[i]) == k;
        if i > 0 {
          assert Key(q[i - 1]) == k;
        }
      }
    }
    assert Key(c) !in QueueKeys(q);
    assert states[pm[Key(c)]].edges == [];
  }

  /** Once the current item has a transition on each of its labels its
      product state is complete. */
  lemma PFinish(net: map<nat, State>, nlevel: map<nat, int>, d: int, states: map<nat, State>, level: map<nat, int>,
                pm: map<(nat, nat, int), nat>, its: map<(nat, nat, int), Item>, sub: map<nat, (nat, nat, int)>,
                queue: seq<Item>, c: Item, n0: nat, next: nat)
    requires ProdInv(net, nlevel, d, states, level, pm, its, sub, queue, Some(c), n0, next)
    requires PEdges(net, states, pm, its, Key(c), ItemLabels(net, c))
    ensures ProdInv(net, nlevel, d, states, level, pm, its, sub, queue, None, n0, next)
  {
  }

  /** With the queue empty, every product state is complete, stores the
      item of its key, lies on the level of the item and, where neither net
      sits on a wildcard, holds the payloads of both states of its item;
      except for the root, created before the loop with no payload. */
  lemma PResult(net: map<nat, State>, nlevel: map<nat, int>, d: int, states: map<nat, State>, level: map<nat, int>,
                pm: map<(nat, nat, int), nat>, its: map<(nat, nat, int), Item>, sub: map<nat, (nat, nat, int)>, n0: nat, next: nat,
                it: Item, s1: nat, s2: nat)
    requires ProdInv(net, nlevel, d, states, level, pm, its, sub, [], None, n0, next)
    requires it == Item(Some(s1), Some(s2), 0, 0) && Key(it) in pm && pm[Key(it)] == n0 && ItemOk(net, nlevel, it, d)
    ensures pm[Key(it)] in states && pm[Key(it)] in level && level[pm[Key(it)]] == ItemLevel(nlevel, it)
    ensures ProductOf(net, states, pm, its, n0, s1, s2)
    ensures forall k :: k in pm ==> n0 <= pm[k] && pm[k] in level && level[pm[k]] == ItemLevel(nlevel, its[k])
  {
    assert Known(pm, Key(it));
    KeyUnique(net, nlevel, its[Key(it)], it, d);
    forall k | k in pm
      ensures PComplete(net, states, pm, its, k) && PNode(net, nlevel, d, states, level, pm, its, sub, k, n0, next)
    {
      assert Known(pm, k);
    }
  }

  /** `r` is the root of the product of the nets from `s1` and `s2` in
      `net`, built in `states`: `pm[k]` is the complete product state of the
      key `k` and `its[k]` its item, only the root item has the root state,
      and a state where neither net sits on a wildcard holds the payloads
      of both. */
  ghost predicate ProductOf(net: map<nat, State>, states: map<nat, State>, pm: map<(nat, nat, int), nat>,
                            its: map<(nat, nat, int), Item>, r: nat, s1: nat, s2: nat) {
    (s1, s2, 0) in pm && pm[(s1, s2, 0)] == r && its.Keys == pm.Keys &&
    its[(s1, s2, 0)] == Item(Some(s1), Some(s2), 0, 0) &&
    (forall k :: k in pm ==> pm[k] in states && Key(its[k]) == k && PComplete(net, states, pm, its, k)) &&
    (forall k :: k in pm && pm[k] == r ==> k == (s1, s2, 0)) &&
    (forall k :: k in pm && pm[k] != r && its[k].fixed == 0 ==> ItemPayloads(net, its[k]) <= Elems(states[pm[k]].payload))
  }

  /** Every key that gets a product state lies in the finite `KeySpace`. */
  lemma PBound(net: map<nat, State>, nlevel: map<nat, int>, d: int, states: map<nat, State>, level: map<nat, int>,
               pm: map<(nat, nat, int), nat>, its: map<(nat, nat, int), Item>, sub: map<nat, (nat, nat, int)>,
               queue: seq<Item>, cur: Option<Item>, n0: nat, next: nat)
    requires ProdInv(net, nlevel, d, states, level, pm, its, sub, queue, cur, n0, next)
    ensures pm.Keys <= KeySpace(net.Keys, d) && |pm| <= |KeySpace(net.Keys, d)|
  {
    forall k | k in pm ensures k in KeySpace(net.Keys, d) {
      assert Known(pm, k);
      KeyInSpace(net, nlevel, its[k], d);
    }
    KeyCard(pm.Keys, KeySpace(net.Keys, d));
  }

  lemma KeyCard<T>(a: set<T>, b: set<T>)
    requires a <= b
    ensures |a| <= |b|
  {
    assert b == a + (b - a) && a * (b - a) == {};
  }
}
