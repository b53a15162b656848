/** The legacy `_product_net` of patternmatcher/syntactic.py, on the state
    store of a matchpy net: the construction of matchpy's `_product_net`
    over items whose components may be terminal lists. A child without a
    product state gets a new list holding the entries of its lists, and an
    item taken off the queue whose list does not sit on a wildcard raises
    `AttributeError` in `labels`. */
module LegacyProductNets {
  import opened Terms
  import opened Sequences
  import opened Transitions
  import opened ProductNets
  import opened DiscriminationNets
  import opened LegacyProducts

  /** The target for a child whose key has a product state already: that
      state, on the level of the child. */
  lemma LPOldKey(net: map<nat, State>, nlevel: map<nat, int>, d: int, nterms: set<nat>, terms: set<nat>,
                 states: map<nat, State>, level: map<nat, int>,
                 pm: map<(nat, nat, int), nat>, its: map<(nat, nat, int), Item>, sub: map<nat, (nat, nat, int)>,
                 queue: seq<Item>, c: Item, l: Label, n0: nat, next: nat)
    requires Closed(net) && Graded(net, nlevel) && Spread(net, nlevel, d) && ListsShape(net, nterms)
    requires LProdInv(net, nlevel, d, nterms, terms, states, level, pm, its, sub, queue, Some(c), n0, next)
    requires l in ItemLabels(net, c) && Keyed(nterms, Child(net, c, l).0) && LKey(nterms, Child(net, c, l).0) in pm
    ensures LTarget(net, nterms, terms, states, pm, Child(net, c, l).0, pm[LKey(nterms, Child(net, c, l).0)])
    ensures var e := pm[LKey(nterms, Child(net, c, l).0)]; e in states && e in level && level[e] == ItemLevel(nlevel, c) + Delta(l)
  {
    var child := Child(net, c, l).0;
    var key := LKey(nterms, child);
    assert Known(pm, LKey(nterms, c));
    ChildOk(net, nlevel, c, l, d);
    assert Known(pm, key);
    assert LPNode(net, nlevel, d, nterms, terms, states, level, pm, its, sub, key, n0, next);
    LKeyLevel(net, nlevel, nterms, its[key], child, d);
  }

  /** The target for a child whose key is new: a new product state,
      queued with the child as its item. */
  method LPNewKey<T>(st: DiscriminationNet<T>, net: map<nat, State>, ghost nlevel: map<nat, int>, ghost d: int,
                     nterms: set<nat>, terms: set<nat>,
                     pm: map<(nat, nat, int), nat>, ghost its: map<(nat, nat, int), Item>, ghost sub: map<nat, (nat, nat, int)>,
                     queue: seq<Item>, c: Item, l: Label, ghost ls: set<Label>, ghost n0: nat)
    returns (e: nat, pm': map<(nat, nat, int), nat>, ghost its': map<(nat, nat, int), Item>,
             ghost sub': map<nat, (nat, nat, int)>, queue': seq<Item>)
    requires st.Wf() && ListsShape(st.states, terms) && Closed(net) && Graded(net, nlevel) && Spread(net, nlevel, d)
    requires ListsShape(net, nterms)
    requires LProdInv(net, nlevel, d, nterms, terms, st.states, st.level, pm, its, sub, queue, Some(c), n0, st.nextId)
    requires LPEdges(net, nterms, terms, st.states, pm, its, LKey(nterms, c), ls) && l in ItemLabels(net, c)
    requires Keyed(nterms, Child(net, c, l).0) && LKey(nterms, Child(net, c, l).0) !in pm
    modifies st
    ensures st.Wf() && ListsShape(st.states, terms) && st.root == old(st.root) && old(st.nextId) <= st.nextId
    ensures LProdInv(net, nlevel, d, nterms, terms, st.states, st.level, pm', its', sub', queue', Some(c), n0, st.nextId)
    ensures LPEdges(net, nterms, terms, st.states, pm', its', LKey(nterms, c), ls)
    ensures LTarget(net, nterms, terms, st.states, pm', Child(net, c, l).0, e)
    ensures e in st.states && st.level[e] == ItemLevel(nlevel, c) + Delta(l)
    ensures Extends(pm, pm') && |pm| < |pm'|
    ensures Frozen(old(st.states), st.states, n0) && Extends(old(st.level), st.level)
    ensures AllPayloads(st.states) <= AllPayloads(old(st.states))
  {
    var child := Child(net, c, l).0;
    assert Known(pm, LKey(nterms, c));
    ChildOk(net, nlevel, c, l, d);
    var key := LKey(nterms, child);
    ghost var s0 := st.states;
    e := st.NewState([], ItemLevel(nlevel, child));
    ListsUpdate(s0, terms, e, State([], []));
    FrozenFresh(old(st.states), e, st.states[e], n0);
    LPNewNode(net, nlevel, d, nterms, terms, old(st.states), old(st.level), pm, its, sub, queue, c, ls, n0, e, child, st.states, st.level);
    ExtendsFresh(pm, key, e);
    pm', its', sub', queue' := pm[key := e], its[key := child], sub[e := key], queue + [child];
  }

  /** The target for a child without a product state: a new list holding
      the entries of the child's lists. */
  method LPList<T>(st: DiscriminationNet<T>, net: map<nat, State>, ghost nlevel: map<nat, int>, ghost d: int,
                     nterms: set<nat>, terms: set<nat>,
                     pm: map<(nat, nat, int), nat>, ghost its: map<(nat, nat, int), Item>, ghost sub: map<nat, (nat, nat, int)>,
                     queue: seq<Item>, c: Item, l: Label, ghost ls: set<Label>, ghost n0: nat)
    returns (e: nat, terms': set<nat>)
    requires st.Wf() && ListsShape(st.states, terms) && Closed(net) && Graded(net, nlevel) && Spread(net, nlevel, d)
    requires ListsShape(net, nterms)
    requires LProdInv(net, nlevel, d, nterms, terms, st.states, st.level, pm, its, sub, queue, Some(c), n0, st.nextId)
    requires LPEdges(net, nterms, terms, st.states, pm, its, LKey(nterms, c), ls) && l in ItemLabels(net, c)
    requires !Keyed(nterms, Child(net, c, l).0)
    modifies st
    ensures st.Wf() && ListsShape(st.states, terms') && st.root == old(st.root) && old(st.nextId) <= st.nextId && terms' == terms + {e}
    ensures n0 <= e
    ensures LProdInv(net, nlevel, d, nterms, terms', st.states, st.level, pm, its, sub, queue, Some(c), n0, st.nextId)
    ensures LPEdges(net, nterms, terms', st.states, pm, its, LKey(nterms, c), ls)
    ensures LTarget(net, nterms, terms', st.states, pm, Child(net, c, l).0, e)
    ensures e in st.states && st.level[e] == ItemLevel(nlevel, c) + Delta(l)
    ensures Frozen(old(st.states), st.states, n0) && Extends(old(st.level), st.level)
    ensures AllPayloads(st.states) <= AllPayloads(old(st.states)) + AllPayloads(net)
  {
    var (child, _) := Child(net, c, l);
    assert Known(pm, LKey(nterms, c));
    ChildOk(net, nlevel, c, l, d);
    ListChild(net, nlevel, nterms, child, d);
    ListPayloadIn(net, child);
    ghost var s0, l0 := st.states, st.level;
    e := st.NewState(ListPayload(net, child), ItemLevel(nlevel, child));
    ListsAdd(s0, terms, e, ListPayload(net, child));
    FrozenFresh(s0, e, st.states[e], n0);
    LPNewList(net, nlevel, d, nterms, terms, s0, l0, pm, its, sub, queue, c, ls, n0, e, ListPayload(net, child), st.states, st.level);
    terms' := terms + {e};
  }

  /** Where the transition of the product state of `c` on `l` goes: the
      product state of the child's key, or a new list. */
  method LPTarget<T>(st: DiscriminationNet<T>, net: map<nat, State>, ghost nlevel: map<nat, int>, ghost d: int,
                     nterms: set<nat>, terms: set<nat>,
                     pm: map<(nat, nat, int), nat>, ghost its: map<(nat, nat, int), Item>, ghost sub: map<nat, (nat, nat, int)>,
                     queue: seq<Item>, c: Item, l: Label, ghost ls: set<Label>, ghost n0: nat)
    returns (e: nat, terms': set<nat>, pm': map<(nat, nat, int), nat>, ghost its': map<(nat, nat, int), Item>,
             ghost sub': map<nat, (nat, nat, int)>, queue': seq<Item>)
    requires st.Wf() && ListsShape(st.states, terms) && Closed(net) && Graded(net, nlevel) && Spread(net, nlevel, d)
    requires ListsShape(net, nterms)
    requires LProdInv(net, nlevel, d, nterms, terms, st.states, st.level, pm, its, sub, queue, Some(c), n0, st.nextId)
    requires LPEdges(net, nterms, terms, st.states, pm, its, LKey(nterms, c), ls) && l in ItemLabels(net, c)
    modifies st
    ensures st.Wf() && ListsShape(st.states, terms') && st.root == old(st.root) && old(st.nextId) <= st.nextId && terms <= terms'
    ensures forall k :: k in terms' && k !in terms ==> n0 <= k
    ensures LProdInv(net, nlevel, d, nterms, terms', st.states, st.level, pm', its', sub', queue', Some(c), n0, st.nextId)
    ensures LPEdges(net, nterms, terms', st.states, pm', its', LKey(nterms, c), ls)
    ensures LTarget(net, nterms, terms', st.states, pm', Child(net, c, l).0, e)
    ensures e in st.states && st.level[e] == ItemLevel(nlevel, c) + Delta(l)
    ensures Extends(pm, pm') && |pm| <= |pm'| && (|queue'| == |queue| || |pm| < |pm'|)
    ensures Frozen(old(st.states), st.states, n0) && Extends(old(st.level), st.level)
    ensures AllPayloads(st.states) <= AllPayloads(old(st.states)) + AllPayloads(net)
  {
    if !Keyed(nterms, Child(net, c, l).0) {
      e, terms' := LPList(st, net, nlevel, d, nterms, terms, pm, its, sub, queue, c, l, ls, n0);
      pm', its', sub', queue' := pm, its, sub, queue;
    } else if LKey(nterms, Child(net, c, l).0) in pm {
      LPOldKey(net, nlevel, d, nterms, terms, st.states, st.level, pm, its, sub, queue, c, l, n0, st.nextId);
      e := pm[LKey(nterms, Child(net, c, l).0)];
      terms', pm', its', sub', queue' := terms, pm, its, sub, queue;
    } else {
      e, pm', its', sub', queue' := LPNewKey(st, net, nlevel, d, nterms, terms, pm, its, sub, queue, c, l, ls, n0);
      terms' := terms;
    }
  }

  /** One label of the loop of the legacy `_product_net`: `LPTarget`, and
      the product state of `c` gets a transition on `l` to the target. */
  method LPLabel<T>(st: DiscriminationNet<T>, net: map<nat, State>, ghost nlevel: map<nat, int>, ghost d: int,
                    nterms: set<nat>, terms: set<nat>,
                    pm: map<(nat, nat, int), nat>, ghost its: map<(nat, nat, int), Item>, ghost sub: map<nat, (nat, nat, int)>,
                    queue: seq<Item>, c: Item, l: Label, ghost ls: set<Label>, ghost n0: nat)
    returns (terms': set<nat>, pm': map<(nat, nat, int), nat>, ghost its': map<(nat, nat, int), Item>,
             ghost sub': map<nat, (nat, nat, int)>, queue': seq<Item>)
    requires st.Wf() && ListsShape(st.states, terms) && Closed(net) && Graded(net, nlevel) && Spread(net, nlevel, d)
    requires ListsShape(net, nterms)
    requires LProdInv(net, nlevel, d, nterms, terms, st.states, st.level, pm, its, sub, queue, Some(c), n0, st.nextId)
    requires LPEdges(net, nterms, terms, st.states, pm, its, LKey(nterms, c), ls) && l in ItemLabels(net, c)
    modifies st
    ensures st.Wf() && ListsShape(st.states, terms') && st.root == old(st.root) && old(st.nextId) <= st.nextId && terms <= terms'
    ensures forall k :: k in terms' && k !in terms ==> n0 <= k
    ensures LProdInv(net, nlevel, d, nterms, terms', st.states, st.level, pm', its', sub', queue', Some(c), n0, st.nextId)
    ensures LPEdges(net, nterms, terms', st.states, pm', its', LKey(nterms, c), ls + {l})
    ensures Extends(pm, pm') && |pm| <= |pm'| && (|queue'| == |queue| || |pm| < |pm'|)
    ensures Frozen(old(st.states), st.states, n0) && Extends(old(st.level), st.level)
    ensures AllPayloads(st.states) <= AllPayloads(old(st.states)) + AllPayloads(net)
  {
    var e;
    e, terms', pm', its', sub', queue' := LPTarget(st, net, nlevel, d, nterms, terms, pm, its, sub, queue, c, l, ls, n0);
    ghost var s1 := st.states;
    var kc := LKey(nterms, c);
    assert Known(pm', kc) && its'[kc] == c;
    assert LPNode(net, nlevel, d, nterms, terms', s1, st.level, pm', its', sub', kc, n0, st.nextId);
    var p := pm'[kc];
    st.SetEdge(p, l, e);
    ListsUpdate(s1, terms', p, st.states[p]);
    FrozenFresh(s1, p, st.states[p], n0);
    FrozenTrans(old(st.states), s1, st.states, n0);
    LPAddEdge(net, nlevel, d, nterms, terms', s1, st.level, pm', its', sub', queue', c, ls, n0, st.nextId, l, e, st.states);
  }

  /** What the inner loop of the legacy `_product_net` keeps: the product
      state of `c` has its transitions on the labels `done` taken so far,
      and the construction has grown from `terms0`, `pm0`, `states0` and
      `level0`. */
  ghost predicate LLabelLoop<T>(st: DiscriminationNet<T>, net: map<nat, State>, nlevel: map<nat, int>, d: int, nterms: set<nat>,
                                terms0: set<nat>, pm0: map<(nat, nat, int), nat>, states0: map<nat, State>, level0: map<nat, int>,
                                q0: nat, c: Item, rest: set<Label>, done: set<Label>, terms: set<nat>,
                                pm: map<(nat, nat, int), nat>, its: map<(nat, nat, int), Item>, sub: map<nat, (nat, nat, int)>,
                                queue: seq<Item>, n0: nat)
    reads st
  {
    rest <= ItemLabels(net, c) && done == ItemLabels(net, c) - rest &&
    st.Wf() && ListsShape(st.states, terms) && Closed(net) && Graded(net, nlevel) && Spread(net, nlevel, d) &&
    ListsShape(net, nterms) &&
    LProdInv(net, nlevel, d, nterms, terms, st.states, st.level, pm, its, sub, queue, Some(c), n0, st.nextId) &&
    LPEdges(net, nterms, terms, st.states, pm, its, LKey(nterms, c), done) &&
    terms0 <= terms && (forall k :: k in terms && k !in terms0 ==> n0 <= k) && Extends(pm0, pm) && |pm0| <= |pm| && (|queue| == q0 || |pm0| < |pm|) &&
    Frozen(states0, st.states, n0) && Extends(level0, st.level) &&
    AllPayloads(st.states) <= AllPayloads(states0) + AllPayloads(net)
  }

  /** One round of the inner loop of the legacy `_product_net`: a label is
      taken from `rest` and processed. */
  method LPLabelRound<T>(st: DiscriminationNet<T>, net: map<nat, State>, ghost nlevel: map<nat, int>, ghost d: int, nterms: set<nat>,
                         ghost terms0: set<nat>, ghost pm0: map<(nat, nat, int), nat>, ghost states0: map<nat, State>,
                         ghost level0: map<nat, int>, ghost q0: nat, c: Item, rest: set<Label>, ghost done: set<Label>, terms: set<nat>,
                         pm: map<(nat, nat, int), nat>, ghost its: map<(nat, nat, int), Item>, ghost sub: map<nat, (nat, nat, int)>,
                         queue: seq<Item>, ghost n0: nat)
    returns (rest': set<Label>, ghost done': set<Label>, terms': set<nat>,
             pm': map<(nat, nat, int), nat>, ghost its': map<(nat, nat, int), Item>, ghost sub': map<nat, (nat, nat, int)>,
             queue': seq<Item>)
    requires rest != {}
    requires LLabelLoop(st, net, nlevel, d, nterms, terms0, pm0, states0, level0, q0, c, rest, done, terms, pm, its, sub, queue, n0)
    modifies st
    ensures st.root == old(st.root) && old(st.nextId) <= st.nextId && rest' < rest
    ensures LLabelLoop(st, net, nlevel, d, nterms, terms0, pm0, states0, level0, q0, c, rest', done', terms', pm', its', sub', queue', n0)
  {
    var l :| l in rest;
    ghost var s0, lv0 := st.states, st.level;
    terms', pm', its', sub', queue' := LPLabel(st, net, nlevel, d, nterms, terms, pm, its, sub, queue, c, l, done, n0);
    ExtendsTrans(pm0, pm, pm');
    ExtendsTrans(level0, lv0, st.level);
    FrozenTrans(states0, s0, st.states, n0);
    MoveOne(ItemLabels(net, c), rest, done, l);
    rest' := rest - {l};
    done' := done + {l};
  }

  /** The inner loop of the legacy `_product_net` for the item `c` just
      taken from the queue: one `LPLabel` for every label of `c`, in an
      order left open. */
  method LPState<T>(st: DiscriminationNet<T>, net: map<nat, State>, ghost nlevel: map<nat, int>, ghost d: int, nterms: set<nat>,
                    terms: set<nat>, pm: map<(nat, nat, int), nat>, ghost its: map<(nat, nat, int), Item>,
                    ghost sub: map<nat, (nat, nat, int)>, queue: seq<Item>, c: Item, ghost n0: nat)
    returns (terms': set<nat>, pm': map<(nat, nat, int), nat>, ghost its': map<(nat, nat, int), Item>,
             ghost sub': map<nat, (nat, nat, int)>, queue': seq<Item>)
    requires LLabelLoop(st, net, nlevel, d, nterms, terms, pm, st.states, st.level, |queue|, c, ItemLabels(net, c), {},
                        terms, pm, its, sub, queue, n0)
    modifies st
    ensures st.root == old(st.root) && old(st.nextId) <= st.nextId
    ensures LLabelLoop(st, net, nlevel, d, nterms, terms, pm, old(st.states), old(st.level), |queue|, c, {}, ItemLabels(net, c),
                       terms', pm', its', sub', queue', n0)
  {
    var rest := ItemLabels(net, c);
    ghost var done: set<Label> := {};
    terms', pm', its', sub', queue' := terms, pm, its, sub, queue;
    while rest != {}
      invariant st.root == old(st.root) && old(st.nextId) <= st.nextId
      invariant LLabelLoop(st, net, nlevel, d, nterms, terms, pm, old(st.states), old(st.level), |queue|, c, rest, done,
                           terms', pm', its', sub', queue', n0)
      decreases rest
    {
      rest, done, terms', pm', its', sub', queue' :=
        LPLabelRound(st, net, nlevel, d, nterms, terms, pm, old(st.states), old(st.level), |queue|, c, rest, done,
                     terms', pm', its', sub', queue', n0);
    }
  }

  /** What the main loop of the legacy `_product_net` keeps: the invariant
      of the construction between two items, with the key map grown from
      `pm1` within the finite `KeySpace`, the lists grown from `terms0` and
      the states grown from `states0`. */
  ghost predicate LLoop<T>(st: DiscriminationNet<T>, net: map<nat, State>, nlevel: map<nat, int>, d: int, nterms: set<nat>,
                           states0: map<nat, State>, terms0: set<nat>, pm1: map<(nat, nat, int), nat>, terms: set<nat>,
                           pm: map<(nat, nat, int), nat>, its: map<(nat, nat, int), Item>, sub: map<nat, (nat, nat, int)>,
                           queue: seq<Item>, n0: nat)
    reads st
  {
    st.Wf() && ListsShape(st.states, terms) && Closed(net) && Graded(net, nlevel) && Spread(net, nlevel, d) &&
    ListsShape(net, nterms) &&
    LProdInv(net, nlevel, d, nterms, terms, st.states, st.level, pm, its, sub, queue, None, n0, st.nextId) &&
    terms0 <= terms && (forall k :: k in terms && k !in terms0 ==> n0 <= k) && Extends(pm1, pm) && |pm| <= |KeySpace(net.Keys, d)| &&
    Frozen(states0, st.states, n0) && Extends(nlevel, st.level) &&
    AllPayloads(st.states) <= AllPayloads(states0) && AllPayloads(net) <= AllPayloads(states0)
  }

  /** One round of the main loop of the legacy `_product_net`: the first
      item of the queue is taken off; `labels` raises `AttributeError` on
      it (`crash`, nothing changes), or it is processed. */
  method LPRound<T>(st: DiscriminationNet<T>, net: map<nat, State>, ghost nlevel: map<nat, int>, ghost d: int, nterms: set<nat>,
                    ghost states0: map<nat, State>, ghost terms0: set<nat>, ghost pm1: map<(nat, nat, int), nat>, terms: set<nat>,
                    pm: map<(nat, nat, int), nat>, ghost its: map<(nat, nat, int), Item>, ghost sub: map<nat, (nat, nat, int)>,
                    queue: seq<Item>, ghost n0: nat)
    returns (crash: bool, terms': set<nat>, pm': map<(nat, nat, int), nat>, ghost its': map<(nat, nat, int), Item>,
             ghost sub': map<nat, (nat, nat, int)>, queue': seq<Item>)
    requires queue != [] && LLoop(st, net, nlevel, d, nterms, states0, terms0, pm1, terms, pm, its, sub, queue, n0)
    modifies st
    ensures st.root == old(st.root) && old(st.nextId) <= st.nextId
    ensures LLoop(st, net, nlevel, d, nterms, states0, terms0, pm1, terms', pm', its', sub', queue', n0)
    ensures crash == Crash(nterms, queue[0])
    ensures crash ==> queue' == queue && pm' == pm && its' == its
    ensures !crash ==> |pm| <= |pm'| && (|pm| < |pm'| || |queue'| < |queue|)
  {
    var c := queue[0];
    if Crash(nterms, c) {
      crash := true;
      terms', pm', its', sub', queue' := terms, pm, its, sub, queue;
      return;
    }
    crash := false;
    LPPop(net, nlevel, d, nterms, terms, st.states, st.level, pm, its, sub, queue, n0, st.nextId);
    ghost var s0, lv0 := st.states, st.level;
    terms', pm', its', sub', queue' := LPState(st, net, nlevel, d, nterms, terms, pm, its, sub, queue[1..], c, n0);
    LPFinish(net, nlevel, d, nterms, terms', st.states, st.level, pm', its', sub', queue', c, n0, st.nextId);
    LPBound(net, nlevel, d, nterms, terms', st.states, st.level, pm', its', sub', queue', None, n0, st.nextId);
    ExtendsTrans(pm1, pm, pm');
    ExtendsTrans(nlevel, lv0, st.level);
    FrozenTrans(states0, s0, st.states, n0);
  }

  /** The main loop of the legacy `_product_net`: items are taken off the
      front of the queue until it is empty or `labels` raises
      `AttributeError` on one; the item that raised it is stored under its
      key. */
  method LPQueue<T>(st: DiscriminationNet<T>, net: map<nat, State>, ghost nlevel: map<nat, int>, ghost d: int, nterms: set<nat>,
                    ghost states0: map<nat, State>, ghost terms0: set<nat>, ghost pm1: map<(nat, nat, int), nat>, terms: set<nat>,
                    pm: map<(nat, nat, int), nat>, ghost its: map<(nat, nat, int), Item>, ghost sub: map<nat, (nat, nat, int)>,
                    queue: seq<Item>, ghost n0: nat)
    returns (crash: bool, terms': set<nat>, pm': map<(nat, nat, int), nat>, ghost its': map<(nat, nat, int), Item>,
             ghost sub': map<nat, (nat, nat, int)>, ghost q': seq<Item>)
    requires LLoop(st, net, nlevel, d, nterms, states0, terms0, pm1, terms, pm, its, sub, queue, n0)
    modifies st
    ensures st.root == old(st.root) && old(st.nextId) <= st.nextId
    ensures LLoop(st, net, nlevel, d, nterms, states0, terms0, pm1, terms', pm', its', sub', q', n0)
    ensures crash <==> q' != []
    ensures crash ==> Crash(nterms, q'[0])
  {
    var q := queue;
    crash := false;
    terms', pm', its', sub' := terms, pm, its, sub;
    while q != [] && !crash
      invariant st.root == old(st.root) && old(st.nextId) <= st.nextId
      invariant LLoop(st, net, nlevel, d, nterms, states0, terms0, pm1, terms', pm', its', sub', q, n0)
      invariant crash ==> q != [] && Crash(nterms, q[0])
      decreases |KeySpace(net.Keys, d)| - |pm'|, |q|, !crash
    {
      ghost var q0 := q;
      crash, terms', pm', its', sub', q := LPRound(st, net, nlevel, d, nterms, states0, terms0, pm1, terms', pm', its', sub', q, n0);
    }
    q' := q;
  }

  /** The legacy `_product_net`: the product of the nets from `state1` and
      `state2`, built breadth first from the item of the two states. Every
      key met gets one new state with a transition on each label of its
      item, to the state of the child's key or to a new list holding the
      entries of the child's lists; the item stored under a key has that
      key, levels follow the items and no state that existed before is
      changed. `ok` is false when `labels` raised `AttributeError` on an
      item met. */
  method LProductNet<T>(st: DiscriminationNet<T>, terms: set<nat>, state1: nat, state2: nat)
    returns (ok: bool, r: nat, terms': set<nat>, ghost pm: map<(nat, nat, int), nat>, ghost its: map<(nat, nat, int), Item>)
    requires st.Wf() && ListsShape(st.states, terms)
    requires state1 in st.states && state2 in st.states && state1 !in terms && state2 !in terms
    requires st.level[state1] == st.level[state2]
    modifies st
    ensures st.Wf() && ListsShape(st.states, terms') && st.root == old(st.root) && terms <= terms'
    ensures forall k :: k in terms' && k !in terms ==> k !in old(st.states)
    ensures Extends(old(st.states), st.states) && Extends(old(st.level), st.level) && old(st.nextId) <= st.nextId
    ensures AllPayloads(st.states) <= AllPayloads(old(st.states))
    ensures its.Keys == pm.Keys && forall k :: k in pm ==> LKey(terms, its[k]) == k
    ensures ok <==> forall k :: k in pm ==> !Crash(terms, its[k])
    ensures ok ==> r == old(st.nextId) && (state1, state2, 0) in pm && pm[(state1, state2, 0)] == r &&
                   its[(state1, state2, 0)] == Item(Some(state1), Some(state2), 0, 0)
    ensures ok ==> r in st.states && r !in terms' && st.level[r] == old(st.level)[state1]
    ensures ok ==> forall k :: k in pm ==> LPComplete(old(st.states), terms, terms', st.states, pm, its, k)
    ensures ok ==> forall k :: k in pm ==> old(st.nextId) <= pm[k] && pm[k] in st.states && pm[k] !in terms' &&
                                           st.level[pm[k]] == ItemLevel(old(st.level), its[k])
  {
    var n0 := st.nextId;
    var net := st.states;
    ghost var nlevel := st.level;
    var it := Item(Some(state1), Some(state2), 0, 0);
    assert LKey(terms, it) == (state1, state2, 0);
    var keys, queue;
    ghost var d, sub;
    d, keys, its, sub, queue := LPStart(st, net, terms, it);
    ghost var pm1 := keys;
    ghost var q;
    ok := true;
    var crash;
    crash, terms', keys, its, sub, q := LPQueue(st, net, nlevel, d, terms, net, terms, pm1, terms, keys, its, sub, queue, n0);
    pm := keys;
    FrozenAll(net, st.states, n0);
    LPKeys(net, nlevel, d, terms, terms', st.states, st.level, pm, its, sub, q, None, n0, st.nextId);
    if crash {
      LPCrashed(net, nlevel, d, terms, terms', st.states, st.level, pm, its, sub, q, n0, st.nextId);
      ok := false;
      r := 0;
    } else {
      r := keys[LKey(terms, it)];
      LPRootItem(net, nlevel, d, terms, terms', st.states, st.level, pm, its, sub, q, None, n0, st.nextId, state1, state2);
      LPResult(net, nlevel, d, terms, terms', st.states, st.level, pm, its, sub, n0, st.nextId);
    }
  }

  /** The start of the legacy `_product_net`: a new root state for the item
      of the two states, which waits alone in the queue. */
  method LPStart<T>(st: DiscriminationNet<T>, net: map<nat, State>, terms: set<nat>, it: Item)
    returns (ghost d: int, pm: map<(nat, nat, int), nat>, ghost its: map<(nat, nat, int), Item>,
             ghost sub: map<nat, (nat, nat, int)>, queue: seq<Item>)
    requires st.Wf() && ListsShape(st.states, terms) && net == st.states
    requires it.s1.Some? && it.s2.Some? && it.depth == 0 && it.fixed == 0
    requires it.s1.value in st.states && it.s2.value in st.states && it.s1.value !in terms && it.s2.value !in terms
    requires st.level[it.s1.value] == st.level[it.s2.value]
    modifies st
    ensures st.root == old(st.root) && old(st.nextId) <= st.nextId && queue == [it]
    ensures LLoop(st, net, old(st.level), d, terms, net, terms, pm, terms, pm, its, sub, queue, old(st.nextId))
    ensures LKey(terms, it) in pm && pm[LKey(terms, it)] == old(st.nextId)
  {
    var n0 := st.nextId;
    ghost var nlevel := st.level;
    d := MaxLevel(st.level, st.states.Keys) - MinLevel(st.level, st.states.Keys);
    SpreadExists(st.states, st.level);
    var id := st.NewState([], st.level[it.s1.value]);
    ListsUpdate(net, terms, id, State([], []));
    queue := [it];
    pm := map[LKey(terms, it) := id];
    its := map[LKey(terms, it) := it];
    sub := map[id := LKey(terms, it)];
    LPInit(net, nlevel, d, terms, terms, st.states, st.level, it, id, n0);
    FrozenFresh(net, id, st.states[id], n0);
    LPBound(net, nlevel, d, terms, terms, st.states, st.level, pm, its, sub, queue, None, n0, st.nextId);
  }
}
