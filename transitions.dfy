/** The states of a discrimination net (`_State` in
    matchpy/matching/syntactic.py): a dictionary from transition labels to
    the ids of target states, kept in insertion order as Python dictionaries
    are, and a payload of pattern indices. A net is a finite map from state
    ids to states. */
module Transitions {
  import opened Terms
  import opened Sequences

  /** The transitions of a state, in the order their labels were first
      added. */
  type Edges = seq<(Label, nat)>

  datatype State = State(edges: Edges, payload: seq<nat>)

  function Keys(es: Edges): set<Label> {
    set i | 0 <= i < |es| :: es[i].0
  }

  lemma KeysCons(x: (Label, nat), es: Edges)
    ensures Keys([x] + es) == {x.0} + Keys(es)
  {
    var c := [x] + es;
    assert forall i :: 0 <= i < |es| ==> c[i + 1] == es[i];
    forall k | k in Keys(c) ensures k in {x.0} + Keys(es) {
      var i :| 0 <= i < |c| && c[i].0 == k;
      if i > 0 {
        assert es[i - 1].0 == k;
      }
    }
    assert c[0] == x;
  }

  /** `state[label]`, or `None` for a `KeyError`. */
  function Get(es: Edges, l: Label): (r: Option<nat>)
    ensures r.Some? <==> l in Keys(es)
    ensures r.Some? ==> (l, r.value) in es
  {
    if es == [] then None
    else if es[0].0 == l then Some(es[0].1)
    else (KeysCons(es[0], es[1..]); assert es == [es[0]] + es[1..]; Get(es[1..], l))
  }

  /** `state[label] = target`: an existing key keeps its place. */
  function Put(es: Edges, l: Label, t: nat): Edges {
    if es == [] then [(l, t)]
    else if es[0].0 == l then [(l, t)] + es[1..]
    else [es[0]] + Put(es[1..], l, t)
  }

  /** After `Put`, the label leads to the new target, every other label to
      what it led to before, and every transition is an old one or the new
      one. */
  lemma {:induction false} PutFacts(es: Edges, l: Label, t: nat)
    ensures Get(Put(es, l, t), l) == Some(t)
    ensures forall l' :: l' != l ==> Get(Put(es, l, t), l') == Get(es, l')
    ensures Keys(Put(es, l, t)) == Keys(es) + {l}
    ensures forall l', t' :: (l', t') in Put(es, l, t) ==> (l', t') in es || (l', t') == (l, t)
  {
    if es == [] {
    } else if es[0].0 == l {
      KeysCons(es[0], es[1..]);
      assert es == [es[0]] + es[1..];
      KeysCons((l, t), es[1..]);
    } else {
      PutFacts(es[1..], l, t);
      KeysCons(es[0], es[1..]);
      assert es == [es[0]] + es[1..];
      KeysCons(es[0], Put(es[1..], l, t));
    }
  }

  /** A new label goes to the end. */
  lemma {:induction false} PutNew(es: Edges, l: Label, t: nat)
    requires l !in Keys(es)
    ensures Put(es, l, t) == es + [(l, t)]
  {
    if es != [] {
      KeysCons(es[0], es[1..]);
      assert es == [es[0]] + es[1..];
      PutNew(es[1..], l, t);
    }
  }

  /** The label is a symbol class that the symbol is an instance of. */
  predicate IsSymbolWildcardFor(k: Label, sym: Label)
    requires sym.Sym?
  {
    k.SymbolType? && InstanceOf(sym, k.typeName)
  }

  /** `_get_symbol_wildcard_label`: the first key, in insertion order, that is
      a symbol class the symbol is an instance of. */
  function SymbolWildcardKey(es: Edges, sym: Label): (r: Option<Label>)
    requires sym.Sym?
    ensures r.Some? ==> IsSymbolWildcardFor(r.value, sym) && r.value in Keys(es)
    ensures r.None? ==> forall k :: k in Keys(es) ==> !IsSymbolWildcardFor(k, sym)
  {
    if es == [] then None
    else if IsSymbolWildcardFor(es[0].0, sym) then
      assert es[0].0 in Keys(es);
      Some(es[0].0)
    else
      KeysCons(es[0], es[1..]);
      assert es == [es[0]] + es[1..];
      SymbolWildcardKey(es[1..], sym)
  }

  /** No key before the one `_get_symbol_wildcard_label` picks is a matching
      symbol class. */
  lemma {:induction false} SymbolWildcardKeyFirst(es: Edges, sym: Label)
    requires sym.Sym? && SymbolWildcardKey(es, sym).Some?
    ensures exists i :: (0 <= i < |es| && es[i].0 == SymbolWildcardKey(es, sym).value &&
                         forall j :: 0 <= j < i ==> !IsSymbolWildcardFor(es[j].0, sym))
  {
    if !IsSymbolWildcardFor(es[0].0, sym) {
      var r := SymbolWildcardKey(es[1..], sym);
      SymbolWildcardKeyFirst(es[1..], sym);
      var i :| 0 <= i < |es[1..]| && es[1..][i].0 == r.value &&
               forall j :: 0 <= j < i ==> !IsSymbolWildcardFor(es[1..][j].0, sym);
      assert forall j :: 0 < j < i + 1 ==> es[j] == es[1..][j - 1];
      assert es[i + 1].0 == r.value;
    } else {
      assert es[0].0 == SymbolWildcardKey(es, sym).value;
    }
  }

  /** Every transition of every state leads to a state of the net. */
  ghost predicate Closed(states: map<nat, State>) {
    forall k, l, t {:trigger (l, t) in states[k].edges} :: k in states && (l, t) in states[k].edges ==> t in states
  }

  /** The net is graded by the nesting depth `level`: an operation head goes
      one level down, an end marker one level up, and every other transition
      stays on its level. */
  ghost predicate Graded(states: map<nat, State>, level: map<nat, int>) {
    states.Keys <= level.Keys &&
    forall k, l, t {:trigger (l, t) in states[k].edges} :: k in states && (l, t) in states[k].edges ==> t in level && level[t] == level[k] + Delta(l)
  }

  /** `b` keeps every entry of `a` as it was. */
  ghost predicate Extends<K, V>(a: map<K, V>, b: map<K, V>) {
    forall k :: k in a ==> k in b && b[k] == a[k]
  }

  /** `b` keeps every state of `a` below id `n` as it was. */
  ghost predicate Frozen(a: map<nat, State>, b: map<nat, State>, n: nat) {
    forall k :: k in a && k < n ==> k in b && b[k] == a[k]
  }

  lemma ExtendsFresh<K, V>(m: map<K, V>, k: K, v: V)
    requires k !in m
    ensures Extends(m, m[k := v]) && |m| < |m[k := v]|
  {
    assert k in m[k := v].Keys;
  }

  lemma ExtendsTrans<K, V>(a: map<K, V>, b: map<K, V>, c: map<K, V>)
    requires Extends(a, b) && Extends(b, c)
    ensures Extends(a, c)
  {
  }

  lemma FrozenFresh(a: map<nat, State>, k: nat, v: State, n: nat)
    requires k !in a || n <= k
    ensures Frozen(a, a[k := v], n)
  {
  }

  lemma FrozenAll(a: map<nat, State>, b: map<nat, State>, n: nat)
    requires Frozen(a, b, n) && forall k :: k in a ==> k < n
    ensures Extends(a, b)
  {
  }

  lemma FrozenTrans(a: map<nat, State>, b: map<nat, State>, c: map<nat, State>, n: nat)
    requires Frozen(a, b, n) && Frozen(b, c, n)
    ensures Frozen(a, c, n)
  {
  }

  /** No transition leads from a state with id `n` or more to a state below
      `n`. */
  ghost predicate ClosedFrom(states: map<nat, State>, n: nat) {
    forall k, l, t {:trigger (l, t) in states[k].edges} :: k in states && n <= k && (l, t) in states[k].edges ==> n <= t
  }

  lemma ClosedFromBelow(states: map<nat, State>, n: nat)
    requires forall k :: k in states ==> k < n
    ensures ClosedFrom(states, n)
  {
  }

  lemma ClosedFromPut(states: map<nat, State>, s: nat, l: Label, t: nat, n: nat)
    requires ClosedFrom(states, n) && s in states && (n <= s ==> n <= t)
    ensures ClosedFrom(states[s := State(Put(states[s].edges, l, t), states[s].payload)], n)
  {
    PutFacts(states[s].edges, l, t);
  }

  lemma ClosedFromNew(states: map<nat, State>, k: nat, p: seq<nat>, n: nat)
    requires ClosedFrom(states, n)
    ensures ClosedFrom(states[k := State([], p)], n)
  {
  }

  lemma ClosedFromPayload(states: map<nat, State>, k: nat, p: seq<nat>, n: nat)
    requires ClosedFrom(states, n) && k in states
    ensures ClosedFrom(states[k := State(states[k].edges, p)], n)
  {
  }

  /** The states from id `n` on, as a net of their own. */
  function From(states: map<nat, State>, n: nat): map<nat, State> {
    map k | k in states && n <= k :: states[k]
  }

  lemma FromClosed(states: map<nat, State>, n: nat)
    requires Closed(states) && ClosedFrom(states, n)
    ensures Closed(From(states, n)) && Extends(From(states, n), states)
  {
  }

  /** A sub-net of a graded net is graded by the same levels. */
  lemma GradedSub(a: map<nat, State>, b: map<nat, State>, level: map<nat, int>)
    requires Extends(a, b) && Graded(b, level)
    ensures Graded(a, level)
  {
    forall k, l, t | k in a && (l, t) in a[k].edges
      ensures t in level && level[t] == level[k] + Delta(l)
    {
      assert (l, t) in b[k].edges;
    }
  }

  lemma GradedMore(a: map<nat, State>, l0: map<nat, int>, l1: map<nat, int>)
    requires Graded(a, l0) && Extends(l0, l1)
    ensures Graded(a, l1)
  {
  }

  lemma PayloadsExtend(a: map<nat, State>, b: map<nat, State>)
    requires Extends(a, b)
    ensures AllPayloads(a) <= AllPayloads(b)
  {
    forall x | x in AllPayloads(a) ensures x in AllPayloads(b) {
      var k :| k in a && x in a[k].payload;
      assert b[k] == a[k];
    }
  }

  /** `Put` keeps a net closed and graded when the new transition is. */
  lemma PutEdge(states: map<nat, State>, level: map<nat, int>, s: nat, l: Label, t: nat)
    requires Closed(states) && Graded(states, level) && s in states && t in states
    requires level[t] == level[s] + Delta(l)
    ensures var states' := states[s := State(Put(states[s].edges, l, t), states[s].payload)];
            Closed(states') && Graded(states', level)
  {
    PutFacts(states[s].edges, l, t);
  }

  function Elems(p: seq<nat>): set<nat> {
    set x | x in p
  }

  /** The pattern indices in the payloads of the net. */
  ghost function AllPayloads(states: map<nat, State>): set<nat> {
    set k, x | k in states && x in states[k].payload :: x
  }

  lemma PayloadsUpdate(states: map<nat, State>, k: nat, st: State)
    ensures AllPayloads(states[k := st]) <= AllPayloads(states) + Elems(st.payload)
  {
  }

  lemma PayloadsKeep(states: map<nat, State>, k: nat, es: Edges)
    requires k in states
    ensures AllPayloads(states[k := State(es, states[k].payload)]) <= AllPayloads(states)
  {
    PayloadsUpdate(states, k, State(es, states[k].payload));
  }
}
