/** The `DiscriminationNet` of matchpy/matching/syntactic.py: a
    deterministic automaton over flatterms, built pattern by pattern as the
    product of the net so far with the net of the new pattern. States are
    kept in one map from ids to states; `nextId` plays the part of the class
    counter `_State._id`. */
module DiscriminationNets {
  import opened Terms
  import opened Sequences
  import opened Transitions
  import opened FlatTerms
  import opened Closures
  import opened SubsetConstruction
  import opened ProductNets

  /** The labels of the chain `_generate_syntactic_net` builds for a
      flatterm: a wildcard becomes `min_count` transitions on `Wildcard`, any
      other atom one transition on itself. */
  function ChainLabels(flatterm: seq<Label>): seq<Label> {
    if flatterm == [] then [] else ChainLabels(flatterm[..|flatterm| - 1]) + ChainUnit(flatterm[|flatterm| - 1])
  }

  function Copies(l: Label, m: nat): (r: seq<Label>)
    ensures |r| == m && forall i :: 0 <= i < m ==> r[i] == l
  {
    if m == 0 then [] else Copies(l, m - 1) + [l]
  }

  function ChainUnit(t: Label): seq<Label> {
    if t.Wild? then Copies(AnyWild, t.min) else [t]
  }

  /** `_generate_state_chain` from `s`: `m` new states `n0`, `n0 + 1`, ...
      joined by transitions on `l`, the first one reached from `s`; nothing
      else changes. */
  ghost predicate ChainStep(before: map<nat, State>, after: map<nat, State>, s: nat, l: Label, n0: nat, m: nat) {
    s in before &&
    (forall k :: k in after <==> k in before || n0 <= k < n0 + m) &&
    (forall k :: k in before && k != s ==> after[k] == before[k]) &&
    (m == 0 ==> after[s] == before[s]) &&
    (m > 0 ==> after[s] == State(Put(before[s].edges, l, n0), before[s].payload)) &&
    (forall k :: n0 <= k < n0 + m - 1 ==> after[k] == State([(l, k + 1)], [])) &&
    (m > 0 ==> after[n0 + m - 1] == State([], []))
  }

  /** The transitions of a chain: `s` to `n0`, and each new state to the
      next. */
  ghost predicate ChainEdges(states: map<nat, State>, s: nat, l: Label, n0: nat, m: nat) {
    s in states && (m > 0 ==> (l, n0) in states[s].edges) &&
    forall k :: n0 <= k < n0 + m - 1 ==> k in states && (l, k + 1) in states[k].edges
  }

  lemma StepEdges(before: map<nat, State>, after: map<nat, State>, s: nat, l: Label, n0: nat, m: nat)
    requires ChainStep(before, after, s, l, n0, m)
    ensures ChainEdges(after, s, l, n0, m)
  {
    if m > 0 {
      PutFacts(before[s].edges, l, n0);
      assert after[s].edges == Put(before[s].edges, l, n0);
    }
    forall k | n0 <= k < n0 + m - 1
      ensures k in after && (l, k + 1) in after[k].edges
    {
      assert after[k] == State([(l, k + 1)], []);
    }
  }

  /** The new states of a chain of transitions that keep the nesting depth
      lie on the level of its start. */
  lemma {:induction false} ChainFlat(states: map<nat, State>, level: map<nat, int>, s: nat, l: Label, n0: nat, m: nat, j: nat)
    requires ChainEdges(states, s, l, n0, m) && Graded(states, level) && Delta(l) == 0 && j < m
    ensures n0 + j in level && level[n0 + j] == level[s]
  {
    if j > 0 {
      ChainFlat(states, level, s, l, n0, m, j - 1);
      assert n0 + j - 1 in states && (l, n0 + j) in states[n0 + j - 1].edges;
    }
  }

  lemma ChainLevel(before: map<nat, State>, after: map<nat, State>, level: map<nat, int>, s: nat, l: Label, n0: nat, m: nat, j: nat)
    requires ChainStep(before, after, s, l, n0, m) && Graded(after, level) && Delta(l) == 0 && j < m
    ensures n0 + j in level && level[n0 + j] == level[s]
  {
    StepEdges(before, after, s, l, n0, m);
    ChainFlat(after, level, s, l, n0, m, j);
  }

  /** States `r`, `r + 1`, ..., `r + |labels|` form a chain reading `labels`,
      and the last one has payload `last`. */
  ghost predicate IsChain(states: map<nat, State>, r: nat, labels: seq<Label>, last: seq<nat>) {
    (forall k :: r <= k < r + |labels| ==> k in states && states[k] == State([(labels[k - r], k + 1)], [])) &&
    r + |labels| in states && states[r + |labels|] == State([], last)
  }

  lemma BelowAll(p: set<nat>, q: set<nat>, x: nat, n: nat)
    requires p <= q + {x} && (forall y :: y in q ==> y < n) && x < n
    ensures forall y :: y in p ==> y < n
  {
  }

  lemma ChainKept(a: map<nat, State>, b: map<nat, State>, r: nat, labels: seq<Label>, last: seq<nat>)
    requires IsChain(a, r, labels, last) && Extends(a, b)
    ensures IsChain(b, r, labels, last)
  {
  }

  /** A new child `t` of `s` on `l` is a chain of one state. */
  lemma ChildStep(before: map<nat, State>, s: nat, l: Label, t: nat)
    requires s in before && t !in before
    ensures ChainStep(before, before[t := State([], [])][s := State(Put(before[s].edges, l, t), before[s].payload)], s, l, t, 1)
  {
  }

  /** One more state at the end of a chain that `ChainStep` describes. */
  lemma ChainGrow(before: map<nat, State>, mid: map<nat, State>, after: map<nat, State>, s: nat, l: Label, n0: nat, i: nat, t: nat, t': nat)
    requires ChainStep(before, mid, s, l, n0, i)
    requires forall k :: k in before ==> k < n0
    requires t == if i == 0 then s else n0 + i - 1
    requires i > 0 ==> mid[t] == State([], [])
    requires t' == n0 + i
    requires after == mid[t' := State([], [])][t := State(Put(mid[t].edges, l, t'), mid[t].payload)]
    ensures ChainStep(before, after, s, l, n0, i + 1)
  {
    if i == 0 {
      FirstLink(before, mid, after, s, l, n0);
    } else {
      NextLink(before, mid, after, s, l, n0, i);
    }
  }

  lemma FirstLink(before: map<nat, State>, mid: map<nat, State>, after: map<nat, State>, s: nat, l: Label, n0: nat)
    requires ChainStep(before, mid, s, l, n0, 0)
    requires forall k :: k in before ==> k < n0
    requires after == mid[n0 := State([], [])][s := State(Put(mid[s].edges, l, n0), mid[s].payload)]
    ensures ChainStep(before, after, s, l, n0, 1)
  {
    assert forall k :: k in before && k != s ==> after[k] == mid[k];
  }

  lemma NextLink(before: map<nat, State>, mid: map<nat, State>, after: map<nat, State>, s: nat, l: Label, n0: nat, i: nat)
    requires ChainStep(before, mid, s, l, n0, i) && i > 0
    requires forall k :: k in before ==> k < n0
    requires mid[n0 + i - 1] == State([], [])
    requires after == mid[n0 + i := State([], [])][n0 + i - 1 := State(Put(mid[n0 + i - 1].edges, l, n0 + i), mid[n0 + i - 1].payload)]
    ensures ChainStep(before, after, s, l, n0, i + 1)
  {
    assert forall k :: k in before ==> after[k] == mid[k];
    assert Put([], l, n0 + i) == [(l, n0 + i)];
    assert forall k :: n0 <= k < n0 + i - 1 ==> after[k] == mid[k];
  }

  /** A chain of `m` states on `l` after the end of a chain extends it by
      `m` copies of `l`. */
  lemma ExtendChain(before: map<nat, State>, after: map<nat, State>, r: nat, labels: seq<Label>, l: Label, m: nat)
    requires IsChain(before, r, labels, [])
    requires forall k :: k in before ==> k < r + |labels| + 1
    requires ChainStep(before, after, r + |labels|, l, r + |labels| + 1, m)
    ensures IsChain(after, r, labels + Copies(l, m), [])
  {
    var labels' := labels + Copies(l, m);
    var s := r + |labels|;
    if m == 0 {
      assert labels' == labels;
      assert forall k :: k in before ==> after[k] == before[k];
      assert after == before;
    } else {
      forall k | r <= k < r + |labels'|
        ensures k in after && after[k] == State([(labels'[k - r], k + 1)], [])
      {
        if k < s {
          assert after[k] == before[k];
        } else if k == s {
          assert Put([], l, s + 1) == [(l, s + 1)];
        } else {
          assert labels'[k - r] == l;
        }
      }
      assert r + |labels'| == s + 1 + m - 1;
    }
  }

  /** Giving the last state of a chain a payload keeps the chain. */
  lemma SetLast(states: map<nat, State>, after: map<nat, State>, r: nat, labels: seq<Label>, e: nat, p: seq<nat>)
    requires IsChain(states, r, labels, []) && e == r + |labels|
    requires after == states[e := State(states[e].edges, p)]
    ensures IsChain(after, r, labels, p)
  {
  }

  /** One round of a loop over a set of labels that skips `EPSILON`. */
  lemma SkipStep(labels: set<Label>, rest: set<Label>, done: set<Label>, l: Label)
    requires rest <= labels && done == (labels - rest) - {Epsilon} && l in rest
    ensures (if l == Epsilon then done else done + {l}) == (labels - (rest - {l})) - {Epsilon}
  {
  }

  /** An entry of the `fail_states` stack of `_generate_net`: `None`, the
      single fail state of an operation of variable arity, or the fail states
      of an operation of fixed arity, one per operand position. */
  datatype Fail = NoFail | FailState(id: nat) | FailList(ids: seq<nat>)

  function FailIds(f: Fail): set<nat> {
    match f
    case NoFail => {}
    case FailState(id) => {id}
    case FailList(ids) => Elems(ids)
  }

  /** `xs[i]` in Python: a negative index counts from the end, and `None`
      stands for the `IndexError` of an index out of range. */
  function PyIndex(xs: seq<nat>, i: int): (r: Option<nat>)
    ensures r.Some? <==> -|xs| <= i < |xs|
    ensures r.Some? ==> r.value in xs
  {
    if 0 <= i < |xs| then Some(xs[i])
    else if -|xs| <= i < 0 then Some(xs[|xs| + i])
    else None
  }

  /** `last_fail_state` of `_generate_net`: the entry itself, or for a list
      the fail state of the current operand position. The outer `None` is
      the `IndexError`; `Some(None)` is Python's `None`. */
  function LastFailState(f: Fail, count: int): (r: Option<Option<nat>>)
    ensures r.None? <==> f.FailList? && !(-|f.ids| <= count < |f.ids|)
    ensures r == Some(None) <==> f.NoFail?
    ensures r.Some? && r.value.Some? ==> r.value.value in FailIds(f)
  {
    match f
    case NoFail => Some(None)
    case FailState(id) => Some(Some(id))
    case FailList(ids) =>
      var x := PyIndex(ids, count);
      if x.Some? then Some(Some(x.value)) else None
  }

  /** The ids `f`, `f + 1`, ..., `f + m - 1`. */
  function Ids(f: nat, m: nat): (r: seq<nat>)
    ensures |r| == m && forall i :: 0 <= i < m ==> r[i] == f + i
  {
    if m == 0 then [] else Ids(f, m - 1) + [f + m - 1]
  }

  /** The states from id `n` on have no payload. */
  ghost predicate FreshEmpty(states: map<nat, State>, n: nat) {
    forall k {:trigger states[k].payload} :: k in states && n <= k ==> states[k].payload == []
  }

  /** What a step of `_generate_net` may do to the net: add states with ids
      from `n` on, change states from id `n` on, and add levels. */
  ghost predicate Grows(s0: map<nat, State>, l0: map<nat, int>, s1: map<nat, State>, l1: map<nat, int>, n: nat) {
    s0.Keys <= s1.Keys && (forall k :: k in s1 && k !in s0 ==> n <= k) && Frozen(s0, s1, n) && Extends(l0, l1)
  }

  /** A net that grew from `s0` without payloads from id `n` on has no
      pattern index that `s0` has not. */
  lemma PayloadsGrow(s0: map<nat, State>, l0: map<nat, int>, s1: map<nat, State>, l1: map<nat, int>, n: nat)
    requires Grows(s0, l0, s1, l1, n) && FreshEmpty(s1, n)
    ensures AllPayloads(s1) <= AllPayloads(s0)
  {
    forall x | x in AllPayloads(s1) ensures x in AllPayloads(s0) {
      var k :| k in s1 && x in s1[k].payload;
      if n <= k {
        assert s1[k].payload == [];
      } else {
        assert k in s0 && s1[k] == s0[k];
      }
    }
  }

  /** Replacing one state keeps the other states below id `n`. */
  lemma FrozenStep(a: map<nat, State>, b: map<nat, State>, c: map<nat, State>, k: nat, v: State, n: nat)
    requires Frozen(a, b, n) && c == b[k := v] && (k !in a || n <= k)
    ensures Frozen(a, c, n)
  {
  }

  lemma GrowsTrans(s0: map<nat, State>, l0: map<nat, int>, s1: map<nat, State>, l1: map<nat, int>,
                   s2: map<nat, State>, l2: map<nat, int>, n: nat)
    requires Grows(s0, l0, s1, l1, n) && Grows(s1, l1, s2, l2, n)
    ensures Grows(s0, l0, s2, l2, n)
  {
  }

  /** A chain of new states from a state with id `n` or more keeps the
      states below `n`, the closure of the states from `n` on, and their
      empty payloads. */
  lemma ChainFacts(before: map<nat, State>, after: map<nat, State>, s: nat, l: Label, n1: nat, m: nat, n: nat)
    requires ChainStep(before, after, s, l, n1, m) && n <= s && n <= n1 && forall k :: k in before ==> k < n1
    requires ClosedFrom(before, n) && FreshEmpty(before, n)
    ensures before.Keys <= after.Keys && Frozen(before, after, n) && ClosedFrom(after, n) && FreshEmpty(after, n)
  {
    forall k | k in after && n <= k
      ensures after[k].payload == []
    {
      if k == s {
        assert after[k].payload == before[k].payload;
      } else if k in before {
        assert after[k] == before[k];
      } else {
        assert n1 <= k < n1 + m;
        if k < n1 + m - 1 {
          assert after[k] == State([(l, k + 1)], []);
        } else {
          assert after[k] == State([], []);
        }
      }
    }
    forall k, l', t | k in after && n <= k && (l', t) in after[k].edges
      ensures n <= t
    {
      if k == s && m > 0 {
        PutFacts(before[s].edges, l, n1);
        assert (l', t) in Put(before[s].edges, l, n1);
        assert (l', t) in before[s].edges || t == n1;
      } else if k in before {
        assert after[k] == before[k];
      } else {
        assert n1 <= k < n1 + m;
        // the last state of the chain has no transition
        if k < n1 + m - 1 {
          assert after[k] == State([(l, k + 1)], []);
        }
      }
    }
  }

  /** States `f` to `last` are on level `h`, each joined to the next by a
      `Wildcard` transition and nothing else. */
  ghost predicate FailChain(states: map<nat, State>, level: map<nat, int>, f: nat, last: nat, h: int) {
    forall k :: f <= k <= last ==> k in states && k in level && level[k] == h && (k < last ==> states[k].edges == [(AnyWild, k + 1)])
  }

  lemma FailChainStep(s0: map<nat, State>, s1: map<nat, State>, s2: map<nat, State>, l0: map<nat, int>, l2: map<nat, int>,
                      f: nat, last: nat, g: nat, h: int)
    requires f <= last && FailChain(s0, l0, f, last, h) && s0[last].edges == [] && g !in s0 && last < g
    requires s1 == s0[g := State([], [])] && s2 == s1[last := State(Put(s1[last].edges, AnyWild, g), s1[last].payload)]
    requires Extends(l0, l2) && g in l2 && l2[g] == h && g == last + 1
    ensures FailChain(s2, l2, f, g, h) && s2[g].edges == []
  {
    forall k | f <= k <= g
      ensures k in s2 && k in l2 && l2[k] == h && (k < g ==> s2[k].edges == [(AnyWild, k + 1)])
    {
      if k == last {
        assert s2[k].edges == Put([], AnyWild, g);
      } else if k < last {
        assert s2[k] == s0[k];
      }
    }
  }

  lemma FailChainEnd(s0: map<nat, State>, s1: map<nat, State>, l: map<nat, int>, f: nat, last: nat, back: nat, h: int)
    requires f <= last && FailChain(s0, l, f, last, h) && s0[last].edges == []
    requires s1 == s0[last := State(Put(s0[last].edges, End, back), s0[last].payload)]
    ensures var ids := Ids(f, last - f + 1);
            forall x :: x in ids ==> f <= x && x in s1 && x in l && l[x] == h
    ensures var ids := Ids(f, last - f + 1);
            forall i :: 0 <= i < |ids| - 1 ==> s1[ids[i]].edges == [(AnyWild, ids[i + 1])]
    ensures var ids := Ids(f, last - f + 1);
            s1[ids[|ids| - 1]].edges == [(End, back)]
  {
    var ids := Ids(f, last - f + 1);
    forall x | x in ids
      ensures f <= x && x in s1 && x in l && l[x] == h
    {
      var i :| 0 <= i < |ids| && ids[i] == x;
    }
    forall i | 0 <= i < |ids| - 1
      ensures s1[ids[i]].edges == [(AnyWild, ids[i + 1])]
    {
      assert ids[i] == f + i < last;
    }
  }

  /** The entries of the stacks `last_wildcards` and `fail_states` are
      states from id `n` on, each on the nesting level of its stack position;
      a list of fail states is never empty. */
  ghost predicate StackInv(states: map<nat, State>, level: map<nat, int>, n: nat, lw: seq<Option<nat>>, fs: seq<Fail>) {
    (forall i :: 0 <= i < |lw| && lw[i].Some? ==> lw[i].value in states && n <= lw[i].value && lw[i].value in level && level[lw[i].value] == i) &&
    (forall i, x {:trigger x in FailIds(fs[i])} :: 0 <= i < |fs| && x in FailIds(fs[i]) ==> x in states && n <= x && x in level && level[x] == i) &&
    (forall i :: 0 <= i < |fs| && fs[i].FailList? ==> fs[i].ids != [])
  }

  lemma StackGrow(s0: map<nat, State>, l0: map<nat, int>, s1: map<nat, State>, l1: map<nat, int>, n: nat,
                  lw: seq<Option<nat>>, fs: seq<Fail>)
    requires StackInv(s0, l0, n, lw, fs) && Grows(s0, l0, s1, l1, n)
    ensures StackInv(s1, l1, n, lw, fs)
  {
  }

  lemma StackSetWild(states: map<nat, State>, level: map<nat, int>, n: nat, lw: seq<Option<nat>>, fs: seq<Fail>, x: nat)
    requires StackInv(states, level, n, lw, fs) && |lw| > 0
    requires x in states && n <= x && x in level && level[x] == |lw| - 1
    ensures StackInv(states, level, n, lw[|lw| - 1 := Some(x)], fs)
  {
    var lw' := lw[|lw| - 1 := Some(x)];
    forall i | 0 <= i < |lw'| && lw'[i].Some?
      ensures lw'[i].value in states && n <= lw'[i].value && lw'[i].value in level && level[lw'[i].value] == i
    {
      if i < |lw| - 1 {
        assert lw'[i] == lw[i];
      } else {
        assert lw'[i] == Some(x);
      }
    }
  }

  /** A new fail state entry is well placed on the level above the stacks. */
  ghost predicate FailOn(states: map<nat, State>, level: map<nat, int>, n: nat, f: Fail, h: int) {
    (forall x :: x in FailIds(f) ==> x in states && n <= x && x in level && level[x] == h) &&
    (f.FailList? ==> f.ids != [])
  }

  lemma StackPush(states: map<nat, State>, level: map<nat, int>, n: nat, lw: seq<Option<nat>>, fs: seq<Fail>, f: Fail)
    requires StackInv(states, level, n, lw, fs) && |lw| == |fs| && FailOn(states, level, n, f, |fs|)
    ensures StackInv(states, level, n, lw + [None], fs + [f])
  {
    var lw', fs' := lw + [None], fs + [f];
    forall i, x | 0 <= i < |fs'| && x in FailIds(fs'[i])
      ensures x in states && n <= x && x in level && level[x] == i
    {
      if i < |fs| {
        assert fs'[i] == fs[i];
      }
    }
  }

  lemma StackPop(states: map<nat, State>, level: map<nat, int>, n: nat, lw: seq<Option<nat>>, fs: seq<Fail>)
    requires StackInv(states, level, n, lw, fs) && |lw| == |fs| > 0
    ensures StackInv(states, level, n, lw[..|lw| - 1], fs[..|fs| - 1])
  {
    var fs' := fs[..|fs| - 1];
    forall i, x | 0 <= i < |fs'| && x in FailIds(fs'[i])
      ensures x in states && n <= x && x in level && level[x] == i
    {
      assert fs'[i] == fs[i];
    }
  }

  /** Setting the payload of `last` in a net whose states from id `n` on
      have none: those states then carry exactly the one pattern index. */
  lemma FinalPayload(before: map<nat, State>, after: map<nat, State>, last: nat, fl: nat, n: nat)
    requires FreshEmpty(before, n) && last in before && n <= last
    requires after == before[last := State(before[last].edges, [fl])]
    ensures forall k :: k in From(after, n) ==> From(after, n)[k].payload == if k == last then [fl] else []
    ensures AllPayloads(From(after, n)) == {fl}
  {
    var nfa := From(after, n);
    forall k | k in nfa
      ensures nfa[k].payload == if k == last then [fl] else []
    {
      if k != last {
        assert nfa[k] == before[k];
      }
    }
    assert last in nfa && fl in nfa[last].payload;
  }

  /** What `_generate_net` returns: the DFA root, or the `IndexError` that
      the stacks raise on some ill-formed flatterms. */
  datatype NetResult = Net(id: nat) | IndexError

  /** What `add` returns: the index of the new pattern, or the `IndexError`
      of `_generate_net`. */
  datatype AddResult = Added(index: nat) | AddIndexError

  /** What `_match` returns: the payload entries it collected, or the
      `TypeError` it raises on a non-terminal atom of the subject. */
  datatype MatchResult = Matched(indices: seq<nat>) | TypeError

  /** A step of `_match` at nesting depth 0: to a state (with the depth it
      leaves), a `KeyError`, the `OPERATION_END` that has no transition,
      or a non-terminal atom. */
  datatype Move = Go(target: nat, depth: nat) | Stuck | EndFail | NonTerminal

  /** The step of `_match` from a state with transitions `es` on the atom
      `t`: its own transition; else for an operation head the `Wildcard`
      transition, which skips the whole operation; for a symbol the first
      matching symbol class, else `Wildcard`. */
  function MatchMove(es: Edges, t: Label): (m: Move)
    ensures m.Go? ==> exists l :: (l, m.target) in es
    ensures m.Go? && m.depth == 1 ==> t.Head? && Get(es, t).None?
    ensures m == NonTerminal <==> Get(es, t).None? && !t.Head? && !t.End? && !t.Sym?
  {
    if Get(es, t).Some? then Go(Get(es, t).value, 0)
    else if t.Head? then (if Get(es, AnyWild).Some? then Go(Get(es, AnyWild).value, 1) else Stuck)
    else if t.End? then EndFail
    else if t.Sym? then
      if SymbolWildcardKey(es, t).Some? then Go(Get(es, SymbolWildcardKey(es, t).value).value, 0)
      else if Get(es, AnyWild).Some? then Go(Get(es, AnyWild).value, 0)
      else Stuck
    else NonTerminal
  }

  /** `_match` from position `i` of the subject, in state `s` at depth
      `depth` with the payload entries `result` collected so far. While
      `depth` is positive the atoms of an operation that a `Wildcard`
      transition skipped are only counted. */
  function Run(states: map<nat, State>, ft: seq<Label>, i: nat, s: nat, depth: int, result: seq<nat>,
               collect: bool, first: bool): MatchResult
    requires Closed(states) && s in states && i <= |ft|
    decreases |ft| - i
  {
    if i == |ft| then Matched(if collect then result else states[s].payload)
    else if depth > 0 then Run(states, ft, i + 1, s, depth + Delta(ft[i]), result, collect, first)
    else if first && states[s].payload != [] then Matched(states[s].payload)
    else
      match MatchMove(states[s].edges, ft[i])
      case Go(t, d) => Run(states, ft, i + 1, t, d, result + states[t].payload, collect, first)
      case Stuck => Matched(if collect then result else [])
      case EndFail => Matched([])
      case NonTerminal => TypeError
  }

  /** Every index `_match` returns is in a payload of the net, so that
      `match` can look it up in `_patterns`. */
  lemma {:induction false} RunIndices(states: map<nat, State>, ft: seq<Label>, i: nat, s: nat, depth: int, result: seq<nat>,
                                      collect: bool, first: bool)
    requires Closed(states) && s in states && i <= |ft| && Elems(result) <= AllPayloads(states)
    ensures Run(states, ft, i, s, depth, result, collect, first).Matched? ==>
              Elems(Run(states, ft, i, s, depth, result, collect, first).indices) <= AllPayloads(states)
    decreases |ft| - i
  {
    assert Elems(states[s].payload) <= AllPayloads(states);
    if i < |ft| {
      if depth > 0 {
        RunIndices(states, ft, i + 1, s, depth + Delta(ft[i]), result, collect, first);
      } else if !(first && states[s].payload != []) {
        var m := MatchMove(states[s].edges, ft[i]);
        if m.Go? {
          assert Elems(states[m.target].payload) <= AllPayloads(states);
          assert Elems(result + states[m.target].payload) == Elems(result) + Elems(states[m.target].payload);
          RunIndices(states, ft, i + 1, m.target, m.depth, result + states[m.target].payload, collect, first);
        }
      }
    }
  }

  /** A subject of symbols, operation heads and end markers. */
  predicate Terminal(ft: seq<Label>) {
    forall i :: 0 <= i < |ft| ==> ft[i].Sym? || ft[i].Head? || ft[i].End?
  }

  lemma {:induction false} ChainLabelsTerminal(ft: seq<Label>)
    requires Terminal(ft)
    ensures ChainLabels(ft) == ft
  {
    if ft != [] {
      ChainLabelsTerminal(ft[..|ft| - 1]);
      assert ft[..|ft| - 1] + [ft[|ft| - 1]] == ft;
    }
  }

  /** The chain `_generate_syntactic_net` builds for a terminal flatterm
      matches that flatterm: `_match` walks it to its last state and
      returns the one pattern index there. */
  lemma {:induction false} ChainRun(states: map<nat, State>, ft: seq<Label>, r: nat, idx: nat, i: nat, acc: seq<nat>,
                                    collect: bool, first: bool)
    requires Closed(states) && Terminal(ft) && IsChain(states, r, ft, [idx]) && i <= |ft|
    ensures r + i in states
    ensures Run(states, ft, i, r + i, 0, acc, collect, first) ==
            Matched(if !collect then [idx] else if i < |ft| then acc + [idx] else acc)
    decreases |ft| - i
  {
    if i < |ft| {
      assert states[r + i] == State([(ft[i], r + i + 1)], []);
      assert Get(states[r + i].edges, ft[i]) == Some(r + i + 1);
      ChainRun(states, ft, r, idx, i + 1, acc + states[r + i + 1].payload, collect, first);
      if i + 1 < |ft| {
        assert acc + states[r + i + 1].payload == acc;
      }
    }
  }

  /** An item the product meets while it reads the chain of the flatterm
      `ft` that starts at `c` in the second net: after `i` atoms the second
      net is at `c + i` and never sits on a wildcard, and the first net sits
      on one for at most the operations `ft[..i]` leaves open. */
  ghost predicate OnChain(it: Item, ft: seq<Label>, c: nat, i: nat)
    requires i <= |ft|
  {
    it.s2 == Some(c + i) && it.fixed <= 1 && (it.fixed == 0 ==> it.depth == 0) &&
    (it.fixed == 1 ==> 0 < it.depth <= Depth(ft[..i]))
  }

  /** The next atom of the chain is a label of such an item, and its child
      on it is the item one atom further. */
  lemma ChildOnChain(net: map<nat, State>, it: Item, ft: seq<Label>, c: nat, idx: nat, i: nat)
    requires Balanced(ft) && IsChain(net, c, ft, [idx]) && i < |ft| && OnChain(it, ft, c, i)
    ensures ft[i] in ItemLabels(net, it) && OnChain(Child(net, it, ft[i]).0, ft, c, i + 1)
  {
    assert net[c + i] == State([(ft[i], c + i + 1)], []);
    assert Get(net[c + i].edges, ft[i]) == Some(c + i + 1);
    assert ft[..i + 1][..i] == ft[..i];
    assert Depth(ft[..i + 1]) == Depth(ft[..i]) + Delta(ft[i]);
    assert Depth(ft[..i]) >= 0;
  }

  /** `_match(flatterm, collect=True)` from `root` returns a list that
      holds the pattern index `idx`. */
  ghost predicate Finds(states: map<nat, State>, root: nat, ft: seq<Label>, idx: nat) {
    Closed(states) && root in states &&
    Run(states, ft, 0, root, 0, states[root].payload, true, false).Matched? &&
    idx in Run(states, ft, 0, root, 0, states[root].payload, true, false).indices
  }

  /** A step of `_match` at depth 0 along the transition on the next atom. */
  lemma RunGo(states: map<nat, State>, ft: seq<Label>, i: nat, s: nat, t: nat, result: seq<nat>, collect: bool)
    requires Closed(states) && s in states && i < |ft| && Get(states[s].edges, ft[i]) == Some(t)
    ensures t in states
    ensures Run(states, ft, i, s, 0, result, collect, false) == Run(states, ft, i + 1, t, 0, result + states[t].payload, collect, false)
  {
    assert MatchMove(states[s].edges, ft[i]) == Go(t, 0);
  }

  /** The product state of an item on the chain has a transition on the
      next atom, to the product state of the item one atom further. */
  lemma WalkStep(net: map<nat, State>, states: map<nat, State>, pm: map<(nat, nat, int), nat>,
                 its: map<(nat, nat, int), Item>, r: nat, s1: nat, c: nat, ft: seq<Label>, idx: nat, i: nat,
                 key: (nat, nat, int))
    returns (key': (nat, nat, int))
    requires Balanced(ft) && IsChain(net, c, ft, [idx]) && i < |ft|
    requires ProductOf(net, states, pm, its, r, s1, c) && key in pm && OnChain(its[key], ft, c, i)
    ensures key' in pm && OnChain(its[key'], ft, c, i + 1)
    ensures pm[key] in states && Get(states[pm[key]].edges, ft[i]) == Some(pm[key'])
  {
    assert PComplete(net, states, pm, its, key);
    ChildOnChain(net, its[key], ft, c, idx, i);
    key' := Key(Child(net, its[key], ft[i]).0);
  }

  /** The walk ends in the state of an item where neither net sits on a
      wildcard, which is not the root and holds the chain's index. */
  lemma WalkEnd(net: map<nat, State>, states: map<nat, State>, pm: map<(nat, nat, int), nat>,
                its: map<(nat, nat, int), Item>, r: nat, s1: nat, c: nat, ft: seq<Label>, idx: nat, key: (nat, nat, int))
    requires Balanced(ft) && IsChain(net, c, ft, [idx]) && 0 < |ft|
    requires ProductOf(net, states, pm, its, r, s1, c) && key in pm && OnChain(its[key], ft, c, |ft|)
    ensures pm[key] in states && idx in Elems(states[pm[key]].payload)
  {
    var it := its[key];
    assert ft[..|ft|] == ft;
    assert it.fixed == 0 && it.s2 != Some(c);
    assert pm[key] != r;
    assert idx in PayloadOf(net, it.s2);
  }

  /** `_match` on the chain's own flatterm walks the product along the
      chain: every atom is a label of the item, so the walk never leaves
      the product states, and at the end neither net sits on a wildcard, so
      the last state holds the chain's index. */
  lemma {:induction false} ProductWalk(net: map<nat, State>, states: map<nat, State>, pm: map<(nat, nat, int), nat>,
                                       its: map<(nat, nat, int), Item>, r: nat, s1: nat, c: nat, ft: seq<Label>, idx: nat,
                                       i: nat, key: (nat, nat, int), result: seq<nat>)
    requires Closed(states) && Balanced(ft) && IsChain(net, c, ft, [idx]) && 0 < |ft| && i <= |ft|
    requires ProductOf(net, states, pm, its, r, s1, c) && key in pm && OnChain(its[key], ft, c, i)
    requires pm[key] in states && Elems(states[pm[key]].payload) <= Elems(result)
    ensures Run(states, ft, i, pm[key], 0, result, true, false).Matched?
    ensures idx in Run(states, ft, i, pm[key], 0, result, true, false).indices
    decreases |ft| - i
  {
    if i == |ft| {
      WalkEnd(net, states, pm, its, r, s1, c, ft, idx, key);
      assert idx in Elems(result);
    } else {
      var key' := WalkStep(net, states, pm, its, r, s1, c, ft, idx, i, key);
      RunGo(states, ft, i, pm[key], pm[key'], result, true);
      ProductWalk(net, states, pm, its, r, s1, c, ft, idx, i + 1, key', result + states[pm[key']].payload);
    }
  }

  /** After `add` of a terminal chain pattern, `_match` on its flatterm
      from the new root finds the pattern, whether the root is the chain
      itself or the product of the old root with it. */
  lemma CombinedFinds(net: map<nat, State>, states: map<nat, State>, pm: map<(nat, nat, int), nat>,
                      its: map<(nat, nat, int), Item>, truthy: bool, oldRoot: nat, root: nat, c: nat, ft: seq<Label>, idx: nat)
    requires Closed(states) && Terminal(ft) && Balanced(ft) && ft != [] && IsChain(net, c, ft, [idx]) && Extends(net, states)
    requires truthy ==> ProductOf(net, states, pm, its, root, oldRoot, c)
    requires !truthy ==> root == c
    ensures Finds(states, root, ft, idx)
  {
    if truthy {
      var key := (oldRoot, c, 0);
      assert OnChain(its[key], ft, c, 0);
      ProductWalk(net, states, pm, its, root, oldRoot, c, ft, idx, 0, key, states[root].payload);
    } else {
      ChainKept(net, states, c, ft, [idx]);
      ChainRun(states, ft, c, idx, 0, states[c].payload, true, false);
    }
  }


  class DiscriminationNet<T> {
    /** Every `_State` created so far, by id. */
    var states: map<nat, State>
    /** `_State._id`: the id of the next state to be created. */
    var nextId: nat
    var root: nat
    /** `_patterns`: each added pattern with its final label. */
    var patterns: seq<(seq<Label>, Option<T>)>
    /** The operation nesting depth of every state. */
    ghost var level: map<nat, int>

    /** The ids are the positive numbers below `nextId`, and the net is
        closed and graded. */
    ghost predicate Wf()
      reads this
    {
      0 < nextId && (forall k :: k in states ==> 0 < k < nextId) && level.Keys == states.Keys &&
      Closed(states) && Graded(states, level)
    }

    ghost predicate Valid()
      reads this
    {
      Wf() && root in states && level[root] == 0 && forall x :: x in AllPayloads(states) ==> x < |patterns|
    }

    /** `DiscriminationNet()`: an empty root state and no patterns. */
    constructor ()
      ensures Valid() && patterns == [] && states == map[root := State([], [])]
    {
      states := map[1 := State([], [])];
      nextId := 2;
      root := 1;
      patterns := [];
      level := map[1 := 0];
    }

    /** `_State(payload)`: a state with a fresh id and no transitions. */
    method NewState(payload: seq<nat>, ghost lv: int) returns (id: nat)
      requires Wf()
      modifies this
      ensures Wf() && root == old(root) && patterns == old(patterns)
      ensures id == old(nextId) && nextId == id + 1 && id !in old(states)
      ensures states == old(states)[id := State([], payload)]
      ensures level == old(level)[id := lv] && Extends(old(level), level)
      ensures AllPayloads(states) <= AllPayloads(old(states)) + Elems(payload)
    {
      PayloadsUpdate(states, nextId, State([], payload));
      id := nextId;
      states := states[id := State([], payload)];
      level := level[id := lv];
      nextId := nextId + 1;
    }

    /** `self._root = r`: only the root changes. */
    method SetRoot(r: nat)
      requires Wf()
      modifies this
      ensures Wf() && root == r && patterns == old(patterns)
      ensures states == old(states) && level == old(level) && nextId == old(nextId)
    {
      root := r;
    }

    /** `state[label] = target`. */
    method SetEdge(s: nat, l: Label, t: nat)
      requires Wf() && s in states && t in states && level[t] == level[s] + Delta(l)
      modifies this
      ensures Wf() && root == old(root) && patterns == old(patterns)
      ensures nextId == old(nextId) && level == old(level)
      ensures states == old(states)[s := State(Put(old(states)[s].edges, l, t), old(states)[s].payload)]
      ensures AllPayloads(states) <= AllPayloads(old(states))
    {
      PutEdge(states, level, s, l, t);
      PayloadsKeep(states, s, Put(states[s].edges, l, t));
      states := states[s := State(Put(states[s].edges, l, t), states[s].payload)];
    }

    /** `state.payload = payload`. */
    method SetPayload(s: nat, payload: seq<nat>)
      requires Wf() && s in states
      modifies this
      ensures Wf() && root == old(root) && patterns == old(patterns)
      ensures nextId == old(nextId) && level == old(level)
      ensures states == old(states)[s := State(old(states)[s].edges, payload)]
      ensures AllPayloads(states) <= AllPayloads(old(states)) + Elems(payload)
    {
      PayloadsUpdate(states, s, State(states[s].edges, payload));
      states := states[s := State(states[s].edges, payload)];
    }

    /** `_create_child_state`: a new state reached from `s` on `l`. */
    method CreateChildState(s: nat, l: Label) returns (t: nat)
      requires Wf() && s in states
      modifies this
      ensures Wf() && root == old(root) && patterns == old(patterns)
      ensures t == old(nextId) && nextId == t + 1
      ensures states == old(states)[t := State([], [])][s := State(Put(old(states)[s].edges, l, t), old(states)[s].payload)]
      ensures ChainStep(old(states), states, s, l, t, 1)
      ensures Extends(old(level), level) && level[t] == old(level)[s] + Delta(l)
      ensures AllPayloads(states) <= AllPayloads(old(states))
    {
      t := NewState([], level[s] + Delta(l));
      SetEdge(s, l, t);
      ChildStep(old(states), s, l, t);
    }

    /** `_generate_state_chain`: `count` new states in a row after `s`, joined
        by transitions on `l`; the last one is returned. */
    method GenerateStateChain(s: nat, l: Label, count: nat) returns (t: nat)
      requires Wf() && s in states
      modifies this
      ensures Wf() && root == old(root) && patterns == old(patterns)
      ensures nextId == old(nextId) + count
      ensures t == if count == 0 then s else old(nextId) + count - 1
      ensures ChainStep(old(states), states, s, l, old(nextId), count)
      ensures Extends(old(level), level)
      ensures AllPayloads(states) <= AllPayloads(old(states))
    {
      t := s;
      ghost var n0 := nextId;
      for i := 0 to count
        invariant Wf() && root == old(root) && patterns == old(patterns)
        invariant nextId == n0 + i && t in states
        invariant t == if i == 0 then s else n0 + i - 1
        invariant ChainStep(old(states), states, s, l, n0, i)
        invariant i > 0 ==> states[t] == State([], [])
        invariant Extends(old(level), level)
        invariant AllPayloads(states) <= AllPayloads(old(states))
      {
        ghost var mid := states;
        ghost var t0 := t;
        t := CreateChildState(t, l);
        ChainGrow(old(states), mid, states, s, l, n0, i, t0, t);
      }
    }

    /** One step of `_generate_syntactic_net`: the chain ending in `state`
        grows by the `ChainUnit` of `term`. */
    method AppendUnit(r: nat, ghost labels: seq<Label>, state: nat, term: Label) returns (state': nat)
      requires Wf() && state == r + |labels| && nextId == state + 1
      requires IsChain(states, r, labels, [])
      modifies this
      ensures Wf() && root == old(root) && patterns == old(patterns)
      ensures state' == r + |labels + ChainUnit(term)| && nextId == state' + 1
      ensures forall k :: k in old(states) && k != state ==> k in states && states[k] == old(states)[k]
      ensures forall k :: k in states <==> k in old(states) || state < k < nextId
      ensures IsChain(states, r, labels + ChainUnit(term), [])
      ensures Extends(old(level), level)
      ensures AllPayloads(states) <= AllPayloads(old(states))
    {
      ghost var before := states;
      if term.Wild? {
        state' := GenerateStateChain(state, AnyWild, term.min);
        ExtendChain(before, states, r, labels, AnyWild, term.min);
      } else {
        state' := CreateChildState(state, term);
        ExtendChain(before, states, r, labels, term, 1);
        assert Copies(term, 1) == [term];
      }
    }

    /** The loop of `_generate_syntactic_net`: the chain that starts at the
        fresh state `r` grows by the `ChainLabels` of the flatterm. */
    method BuildChain(r: nat, flatterm: seq<Label>) returns (state: nat)
      requires Wf() && r in states && states[r] == State([], []) && nextId == r + 1
      modifies this
      ensures Wf() && root == old(root) && patterns == old(patterns)
      ensures state == r + |ChainLabels(flatterm)| && nextId == state + 1
      ensures forall k :: k in old(states) && k != r ==> k in states && states[k] == old(states)[k]
      ensures forall k :: k in states <==> k in old(states) || r < k < nextId
      ensures IsChain(states, r, ChainLabels(flatterm), [])
      ensures Extends(old(level), level)
      ensures AllPayloads(states) <= AllPayloads(old(states))
    {
      state := r;
      ghost var labels: seq<Label> := [];
      for i := 0 to |flatterm|
        invariant Wf() && root == old(root) && patterns == old(patterns)
        invariant labels == ChainLabels(flatterm[..i])
        invariant state == r + |labels| && nextId == state + 1
        invariant forall k :: k in old(states) && k != r ==> k in states && states[k] == old(states)[k]
        invariant forall k :: k in states <==> k in old(states) || r < k < nextId
        invariant IsChain(states, r, labels, [])
        invariant Extends(old(level), level)
        invariant AllPayloads(states) <= AllPayloads(old(states))
      {
        assert flatterm[..i + 1][..i] == flatterm[..i];
        state := AppendUnit(r, labels, state, flatterm[i]);
        labels := labels + ChainUnit(flatterm[i]);
      }
      assert flatterm[..|flatterm|] == flatterm;
    }

    /** `_generate_syntactic_net`: a chain of new states reading the
        `ChainLabels` of the flatterm, whose last state alone has the payload
        `[finalLabel]`. */
    method GenerateSyntacticNet(flatterm: seq<Label>, finalLabel: nat) returns (r: nat)
      requires Wf()
      modifies this
      ensures Wf() && root == old(root) && patterns == old(patterns)
      ensures r == old(nextId) && nextId == r + |ChainLabels(flatterm)| + 1
      ensures Extends(old(states), states)
      ensures forall k :: k in states <==> k in old(states) || r <= k < nextId
      ensures IsChain(states, r, ChainLabels(flatterm), [finalLabel])
      ensures level[r] == 0 && Extends(old(level), level)
      ensures AllPayloads(states) <= AllPayloads(old(states)) + {finalLabel}
    {
      r := NewState([], 0);
      var state := BuildChain(r, flatterm);
      ghost var built := states;
      SetPayload(state, [finalLabel]);
      SetLast(built, states, r, ChainLabels(flatterm), state, [finalLabel]);
      assert Elems([finalLabel]) == {finalLabel};
    }

    /** `_create_state`: a new state without transitions whose payload lists,
        once each, the payload entries of the NFA states of `t`. */
    method CreateState(t: set<nat>, nfa: map<nat, State>, ghost lv: int) returns (id: nat)
      requires Wf() && t <= nfa.Keys
      modifies this
      ensures Wf() && root == old(root) && patterns == old(patterns)
      ensures id == old(nextId) && nextId == id + 1 && id !in old(states)
      ensures id in states && states == old(states)[id := states[id]] && states[id].edges == []
      ensures Elems(states[id].payload) == PayloadUnion(nfa, t) && NoDuplicates(states[id].payload)
      ensures id in level && level == old(level)[id := level[id]] && level[id] == lv && Extends(old(level), level)
      ensures AllPayloads(states) <= AllPayloads(old(states)) + PayloadUnion(nfa, t)
    {
      var payload := JoinPayloads(t, nfa);
      var list := SetToList(payload);
      id := NewState(list, lv);
    }

    /** One label of the inner loop of `_convert_nfa_to_dfa`: the DFA state
        of `c` gets a transition on `l` to the DFA state of the target set,
        which is created and queued when it is new. */
    method ProcessLabel(nfa: map<nat, State>, ghost nlevel: map<nat, int>, dfa: map<set<nat>, nat>, ghost sub: map<nat, set<nat>>,
                        queue: seq<set<nat>>, c: set<nat>, l: Label, ghost ls: set<Label>, ghost n0: nat)
      returns (dfa': map<set<nat>, nat>, ghost sub': map<nat, set<nat>>, queue': seq<set<nat>>)
      requires Wf() && Closed(nfa) && Graded(nfa, nlevel)
      requires DfaInv(nfa, nlevel, states, level, dfa, sub, queue, Some(c), n0, nextId)
      requires EdgesDone(nfa, states, dfa, c, ls) && l in NfaLabels(nfa, c)
      modifies this
      ensures Wf() && root == old(root) && patterns == old(patterns) && old(nextId) <= nextId
      ensures DfaInv(nfa, nlevel, states, level, dfa', sub', queue', Some(c), n0, nextId)
      ensures EdgesDone(nfa, states, dfa', c, ls + {l})
      ensures Extends(dfa, dfa') && |dfa| <= |dfa'| && (|queue'| == |queue| || |dfa| < |dfa'|)
      ensures Frozen(old(states), states, n0) && Extends(old(level), level)
      ensures AllPayloads(states) <= AllPayloads(old(states)) + AllPayloads(nfa)
    {
      var target := TargetSet(nfa, c, l);
      assert Tracked(dfa, c);
      ghost var h := level[dfa[c]];
      TargetLevel(nfa, nlevel, c, l, h);
      TargetNonEmpty(nfa, c, l);
      PayloadUnionIn(nfa, target);
      dfa', sub', queue' := dfa, sub, queue;
      if target !in dfa {
        ghost var st0, lv0 := states, level;
        var id := CreateState(target, nfa, h + Delta(l));
        FrozenFresh(st0, id, states[id], n0);
        NewNode(nfa, nlevel, st0, lv0, dfa, sub, queue, c, ls, n0, id, target, states, level);
        ExtendsFresh(dfa, target, id);
        dfa', sub', queue' := dfa[target := id], sub[id := target], queue + [target];
      }
      ghost var st1 := states;
      assert Frozen(old(states), st1, n0);
      var d := dfa'[c];
      var e := dfa'[target];
      assert Tracked(dfa', c);
      assert DfaNode(nfa, nlevel, st1, level, dfa', sub', c, n0, nextId);
      assert level[d] == h && n0 <= d;
      var y :| y in target;
      assert Tracked(dfa', target);
      assert DfaNode(nfa, nlevel, st1, level, dfa', sub', target, n0, nextId);
      assert nlevel[y] == level[e] && nlevel[y] == h + Delta(l);
      SetEdge(d, l, e);
      FrozenFresh(st1, d, State(Put(st1[d].edges, l, e), st1[d].payload), n0);
      FrozenTrans(old(states), st1, states, n0);
      AddEdge(nfa, nlevel, st1, level, dfa', sub', queue', c, ls, n0, nextId, l, states);
    }

    /** One round of the inner loop of `_convert_nfa_to_dfa`: a label is
        taken from `rest` and, unless it is `EPSILON`, processed. The facts
        the loop keeps are stated relative to the loop's start (`dfa0`,
        `states0`, `level0`, `q0`). */
    method LabelRound(nfa: map<nat, State>, ghost nlevel: map<nat, int>, ghost dfa0: map<set<nat>, nat>,
                      ghost states0: map<nat, State>, ghost level0: map<nat, int>, ghost q0: nat,
                      rest: set<Label>, ghost done: set<Label>, dfa: map<set<nat>, nat>, ghost sub: map<nat, set<nat>>,
                      queue: seq<set<nat>>, c: set<nat>, ghost n0: nat)
      returns (rest': set<Label>, ghost done': set<Label>, dfa': map<set<nat>, nat>, ghost sub': map<nat, set<nat>>,
               queue': seq<set<nat>>)
      requires Wf() && Closed(nfa) && Graded(nfa, nlevel)
      requires DfaInv(nfa, nlevel, states, level, dfa, sub, queue, Some(c), n0, nextId)
      requires EdgesDone(nfa, states, dfa, c, done)
      requires rest != {} && rest <= NfaLabels(nfa, c) && done == (NfaLabels(nfa, c) - rest) - {Epsilon}
      requires Extends(dfa0, dfa) && |dfa0| <= |dfa| && (|queue| == q0 || |dfa0| < |dfa|)
      requires Frozen(states0, states, n0) && Extends(level0, level)
      requires AllPayloads(states) <= AllPayloads(states0) + AllPayloads(nfa)
      modifies this
      ensures Wf() && root == old(root) && patterns == old(patterns) && old(nextId) <= nextId
      ensures DfaInv(nfa, nlevel, states, level, dfa', sub', queue', Some(c), n0, nextId)
      ensures EdgesDone(nfa, states, dfa', c, done')
      ensures rest' < rest && done' == (NfaLabels(nfa, c) - rest') - {Epsilon}
      ensures Extends(dfa0, dfa') && |dfa0| <= |dfa'| && (|queue'| == q0 || |dfa0| < |dfa'|)
      ensures Frozen(states0, states, n0) && Extends(level0, level)
      ensures AllPayloads(states) <= AllPayloads(states0) + AllPayloads(nfa)
    {
      var l :| l in rest;
      SkipStep(NfaLabels(nfa, c), rest, done, l);
      rest' := rest - {l};
      done', dfa', sub', queue' := done, dfa, sub, queue;
      if l != Epsilon {
        ghost var st0, lv0 := states, level;
        dfa', sub', queue' := ProcessLabel(nfa, nlevel, dfa, sub, queue, c, l, done, n0);
        ExtendsTrans(dfa0, dfa, dfa');
        ExtendsTrans(level0, lv0, level);
        FrozenTrans(states0, st0, states, n0);
        done' := done + {l};
      }
    }

    /** The inner loop of `_convert_nfa_to_dfa` for the set `c` just taken
        from the queue: one `ProcessLabel` for every label of its NFA states
        except `EPSILON`. */
    method ProcessState(nfa: map<nat, State>, ghost nlevel: map<nat, int>, dfa: map<set<nat>, nat>, ghost sub: map<nat, set<nat>>,
                        queue: seq<set<nat>>, c: set<nat>, ghost n0: nat)
      returns (dfa': map<set<nat>, nat>, ghost sub': map<nat, set<nat>>, queue': seq<set<nat>>)
      requires Wf() && Closed(nfa) && Graded(nfa, nlevel)
      requires DfaInv(nfa, nlevel, states, level, dfa, sub, queue, Some(c), n0, nextId)
      requires EdgesDone(nfa, states, dfa, c, {})
      modifies this
      ensures Wf() && root == old(root) && patterns == old(patterns) && old(nextId) <= nextId
      ensures DfaInv(nfa, nlevel, states, level, dfa', sub', queue', None, n0, nextId)
      ensures Extends(dfa, dfa') && |dfa| <= |dfa'| && (|queue'| == |queue| || |dfa| < |dfa'|)
      ensures Frozen(old(states), states, n0) && Extends(old(level), level)
      ensures AllPayloads(states) <= AllPayloads(old(states)) + AllPayloads(nfa)
    {
      var rest := NfaLabels(nfa, c);
      ghost var done: set<Label> := {};
      dfa', sub', queue' := dfa, sub, queue;
      while rest != {}
        invariant rest <= NfaLabels(nfa, c) && done == (NfaLabels(nfa, c) - rest) - {Epsilon}
        invariant Wf() && root == old(root) && patterns == old(patterns) && old(nextId) <= nextId
        invariant DfaInv(nfa, nlevel, states, level, dfa', sub', queue', Some(c), n0, nextId)
        invariant EdgesDone(nfa, states, dfa', c, done)
        invariant Extends(dfa, dfa') && |dfa| <= |dfa'| && (|queue'| == |queue| || |dfa| < |dfa'|)
        invariant Frozen(old(states), states, n0) && Extends(old(level), level)
        invariant AllPayloads(states) <= AllPayloads(old(states)) + AllPayloads(nfa)
        decreases rest
      {
        rest, done, dfa', sub', queue' := LabelRound(nfa, nlevel, dfa, old(states), old(level), |queue|,
                                                     rest, done, dfa', sub', queue', c, n0);
      }
      assert Tracked(dfa', c);
      FinishInv(nfa, nlevel, states, level, dfa', sub', queue', c, n0, nextId);
    }

    /** One round of the main loop of `_convert_nfa_to_dfa`: the last set of
        the queue is taken off and processed. The facts the loop keeps are
        stated relative to the loop's start. */
    method QueueRound(nfa: map<nat, State>, ghost nlevel: map<nat, int>, ghost states0: map<nat, State>,
                      ghost dfa1: map<set<nat>, nat>, dfa: map<set<nat>, nat>, ghost sub: map<nat, set<nat>>,
                      queue: seq<set<nat>>, ghost n0: nat)
      returns (dfa': map<set<nat>, nat>, ghost sub': map<nat, set<nat>>, queue': seq<set<nat>>)
      requires Wf() && Closed(nfa) && Graded(nfa, nlevel) && queue != []
      requires DfaInv(nfa, nlevel, states, level, dfa, sub, queue, None, n0, nextId)
      requires Extends(dfa1, dfa) && Frozen(states0, states, n0) && Extends(nlevel, level)
      requires AllPayloads(states) <= AllPayloads(states0) && AllPayloads(nfa) <= AllPayloads(states0)
      modifies this
      ensures Wf() && root == old(root) && patterns == old(patterns) && old(nextId) <= nextId
      ensures DfaInv(nfa, nlevel, states, level, dfa', sub', queue', None, n0, nextId)
      ensures Extends(dfa1, dfa') && Frozen(states0, states, n0) && Extends(nlevel, level)
      ensures AllPayloads(states) <= AllPayloads(states0)
      ensures |dfa'| <= |PowerSet(nfa.Keys)| && |dfa| <= |dfa'| && (|dfa| < |dfa'| || |queue'| < |queue|)
    {
      var c := queue[|queue| - 1];
      PopInv(nfa, nlevel, states, level, dfa, sub, queue, n0, nextId);
      ghost var st0, lv0 := states, level;
      dfa', sub', queue' := ProcessState(nfa, nlevel, dfa, sub, queue[..|queue| - 1], c, n0);
      DfaBound(nfa, nlevel, states, level, dfa', sub', queue', None, n0, nextId);
      ExtendsTrans(dfa1, dfa, dfa');
      ExtendsTrans(nlevel, lv0, level);
      FrozenTrans(states0, st0, states, n0);
    }

    /** `_convert_nfa_to_dfa`: the subset construction over the NFA `nfa`,
        whose states are states of this net. Every set of NFA states that is
        reached from the closure of `root0` gets a complete DFA state whose
        payload joins theirs; the DFA state of the closure is returned. No
        state that existed before is changed. */
    method ConvertNfaToDfa(root0: nat, nfa: map<nat, State>) returns (r: nat, ghost dfa: map<set<nat>, nat>)
      requires Wf() && root0 in nfa && Closed(nfa) && Extends(nfa, states)
      modifies this
      ensures Wf() && root == old(root) && patterns == old(patterns)
      ensures Extends(old(states), states) && Extends(old(level), level) && old(nextId) <= nextId
      ensures AllPayloads(states) <= AllPayloads(old(states))
      ensures EpsClosure(nfa, {root0}) in dfa && r == dfa[EpsClosure(nfa, {root0})]
      ensures r in states && level[r] == level[root0]
      ensures forall t :: t in dfa ==> Complete(nfa, states, dfa, t) && Elems(states[dfa[t]].payload) == PayloadUnion(nfa, t)
    {
      ghost var n0 := nextId;
      ghost var nlevel := level;
      GradedSub(nfa, states, level);
      PayloadsExtend(nfa, states);
      var newRoot := EpsilonClosure(nfa, {root0});
      ClosureLevel(nfa, nlevel, {root0}, nlevel[root0]);
      EpsClosureLeast(nfa, {root0});
      var id := CreateState(newRoot, nfa, nlevel[root0]);
      var queue := [newRoot];
      var newStates := map[newRoot := id];
      ghost var sub := map[id := newRoot];
      InitInv(nfa, nlevel, states, level, newRoot, id, n0);
      FrozenFresh(old(states), id, states[id], n0);
      while queue != []
        invariant Wf() && root == old(root) && patterns == old(patterns) && n0 <= nextId
        invariant DfaInv(nfa, nlevel, states, level, newStates, sub, queue, None, n0, nextId)
        invariant Extends(map[newRoot := id], newStates) && |newStates| <= |PowerSet(nfa.Keys)|
        invariant Frozen(old(states), states, n0) && Extends(nlevel, level)
        invariant AllPayloads(states) <= AllPayloads(old(states))
        decreases |PowerSet(nfa.Keys)| - |newStates|, |queue|
      {
        newStates, sub, queue := QueueRound(nfa, nlevel, old(states), map[newRoot := id], newStates, sub, queue, n0);
      }
      r := newStates[newRoot];
      dfa := newStates;
      FrozenAll(old(states), states, n0);
      assert Tracked(dfa, newRoot);
      assert DfaNode(nfa, nlevel, states, level, dfa, sub, newRoot, n0, nextId);
      DoneInv(nfa, nlevel, states, level, dfa, sub, n0, nextId);
    }

    /** The truth value of a `_State` or `None` in Python: a state is true
        when it has a transition. */
    function Truthy(o: Option<nat>): bool
      reads this
    {
      o.Some? && o.value in states && states[o.value].edges != []
    }

    /** The truth value of an entry of `fail_states`. */
    function FailTruthy(f: Fail): bool
      reads this
    {
      match f
      case NoFail => false
      case FailState(id) => Truthy(Some(id))
      case FailList(ids) => ids != []
    }

    /** What holds between the terms of `_generate_net`, whose net starts at
        id `n`: `state` and the entries of the stacks `last_wildcards`
        (`lw`), `fail_states` (`fs`) and `operand_counts` (`oc`) are states
        of that net, each on the nesting level of its stack position; the net
        has no transition out of it and no payload yet. */
    ghost predicate NetInv(n: nat, state: nat, lw: seq<Option<nat>>, fs: seq<Fail>, oc: seq<int>)
      reads this
    {
      Wf() && n <= nextId && ClosedFrom(states, n) && FreshEmpty(states, n) &&
      |lw| == |fs| && |fs| == |oc| && |oc| > 0 &&
      state in states && n <= state && level[state] == |lw| - 1 &&
      StackInv(states, level, n, lw, fs)
    }

    /** `_State()` inside `_generate_net`, whose net starts at id `n`. */
    method AddState(ghost n: nat, ghost lv: int) returns (id: nat)
      requires Wf() && n <= nextId && ClosedFrom(states, n) && FreshEmpty(states, n)
      modifies this
      ensures Wf() && root == old(root) && patterns == old(patterns) && n <= nextId
      ensures ClosedFrom(states, n) && FreshEmpty(states, n) && Grows(old(states), old(level), states, level, n)
      ensures id == old(nextId) && nextId == id + 1 && states == old(states)[id := State([], [])] && level[id] == lv
    {
      id := NewState([], lv);
      ClosedFromNew(old(states), id, [], n);
      FrozenFresh(old(states), id, State([], []), n);
    }

    /** `state[label] = target` inside `_generate_net`. */
    method Link(ghost n: nat, s: nat, l: Label, t: nat)
      requires Wf() && n <= nextId && ClosedFrom(states, n) && FreshEmpty(states, n)
      requires s in states && t in states && n <= s && n <= t && level[t] == level[s] + Delta(l)
      modifies this
      ensures Wf() && root == old(root) && patterns == old(patterns) && nextId == old(nextId) && level == old(level)
      ensures ClosedFrom(states, n) && FreshEmpty(states, n) && Grows(old(states), old(level), states, level, n)
      ensures states == old(states)[s := State(Put(old(states)[s].edges, l, t), old(states)[s].payload)]
    {
      SetEdge(s, l, t);
      ClosedFromPut(old(states), s, l, t, n);
      FrozenFresh(old(states), s, states[s], n);
    }

    /** `_create_child_state` inside `_generate_net`. */
    method AddChild(ghost n: nat, s: nat, l: Label) returns (t: nat)
      requires Wf() && n <= nextId && ClosedFrom(states, n) && FreshEmpty(states, n) && s in states && n <= s
      modifies this
      ensures Wf() && root == old(root) && patterns == old(patterns) && n <= nextId
      ensures ClosedFrom(states, n) && FreshEmpty(states, n) && Grows(old(states), old(level), states, level, n)
      ensures t == old(nextId) && nextId == t + 1
      ensures states == old(states)[t := State([], [])][s := State(Put(old(states)[s].edges, l, t), old(states)[s].payload)]
      ensures t in states && n <= t && level[t] == level[s] + Delta(l)
    {
      t := CreateChildState(s, l);
      ChainFacts(old(states), states, s, l, t, 1, n);
    }

    /** One round of the loop that builds the fail states of an operation of
        fixed arity: `last` gets a `Wildcard` transition to a new state. */
    method FailLink(ghost n: nat, ghost f: nat, last: nat, ghost h: int) returns (g: nat)
      requires Wf() && n <= nextId && ClosedFrom(states, n) && FreshEmpty(states, n)
      requires n <= f <= last && nextId == last + 1 && FailChain(states, level, f, last, h) && states[last].edges == []
      modifies this
      ensures Wf() && root == old(root) && patterns == old(patterns) && n <= nextId
      ensures ClosedFrom(states, n) && FreshEmpty(states, n) && Grows(old(states), old(level), states, level, n)
      ensures g == last + 1 && nextId == g + 1 && FailChain(states, level, f, g, h) && states[g].edges == []
      ensures Frozen(old(states), states, f)
    {
      g := AddState(n, h);
      ghost var s1, l1 := states, level;
      FrozenStep(old(states), old(states), s1, g, s1[g], f);
      Link(n, last, AnyWild, g);
      FrozenStep(old(states), s1, states, last, states[last], f);
      GrowsTrans(old(states), old(level), s1, l1, states, level, n);
      FailChainStep(old(states), s1, states, old(level), level, f, last, g, h);
    }

    /** The fail states of an operation of fixed arity: `min + 1` new states
        on level `h`, each joined to the next by a `Wildcard` transition, the
        last one leaving on `OPERATION_END` to `back`. */
    method FixedFail(ghost n: nat, min: nat, back: nat, ghost h: int) returns (ids: seq<nat>)
      requires Wf() && n <= nextId && ClosedFrom(states, n) && FreshEmpty(states, n)
      requires back in states && n <= back && level[back] == h - 1
      modifies this
      ensures Wf() && root == old(root) && patterns == old(patterns) && n <= nextId
      ensures ClosedFrom(states, n) && FreshEmpty(states, n) && Grows(old(states), old(level), states, level, n)
      ensures |ids| == min + 1 && forall x :: x in ids ==> x in states && n <= x && level[x] == h
      ensures forall i :: 0 <= i < min ==> states[ids[i]].edges == [(AnyWild, ids[i + 1])]
      ensures states[ids[min]].edges == [(End, back)]
      ensures Frozen(old(states), states, old(nextId))
    {
      var f := AddState(n, h);
      FrozenStep(old(states), old(states), states, f, states[f], f);
      ghost var s1, l1 := states, level;
      var last := FailRun(n, f, min, h);
      GrowsTrans(old(states), old(level), s1, l1, states, level, n);
      FrozenTrans(old(states), s1, states, f);
      ghost var s2, l2 := states, level;
      Link(n, last, End, back);
      FrozenStep(old(states), s2, states, last, states[last], f);
      GrowsTrans(old(states), old(level), s2, l2, states, level, n);
      ids := Ids(f, last - f + 1);
      FailChainEnd(s2, states, l2, f, last, back, h);
    }

    /** The loop that joins `min` new states to the fail state `f`, one
        `Wildcard` transition each. */
    method FailRun(ghost n: nat, f: nat, min: nat, ghost h: int) returns (last: nat)
      requires Wf() && n <= f && nextId == f + 1 && ClosedFrom(states, n) && FreshEmpty(states, n)
      requires FailChain(states, level, f, f, h) && states[f].edges == []
      modifies this
      ensures Wf() && root == old(root) && patterns == old(patterns) && n <= nextId
      ensures ClosedFrom(states, n) && FreshEmpty(states, n) && Grows(old(states), old(level), states, level, n)
      ensures last == f + min && nextId == last + 1
      ensures FailChain(states, level, f, last, h) && states[last].edges == []
      ensures Frozen(old(states), states, f)
    {
      last := f;
      for i := 0 to min
        invariant Wf() && root == old(root) && patterns == old(patterns) && n <= nextId
        invariant ClosedFrom(states, n) && FreshEmpty(states, n) && Grows(old(states), old(level), states, level, n)
        invariant last == f + i && nextId == last + 1
        invariant FailChain(states, level, f, last, h) && states[last].edges == []
        invariant Frozen(old(states), states, f)
      {
        ghost var s0, l0 := states, level;
        last := FailLink(n, f, last, h);
        GrowsTrans(old(states), old(level), s0, l0, states, level, n);
        FrozenTrans(old(states), s0, states, f);
      }
    }

    /** The fail state of an operation of variable arity: a new state on
        level `h` that leaves on `OPERATION_END` to `back` and loops on
        `Wildcard`. */
    method StarFail(ghost n: nat, back: nat, ghost h: int) returns (f: nat)
      requires Wf() && n <= nextId && ClosedFrom(states, n) && FreshEmpty(states, n)
      requires back in states && n <= back && level[back] == h - 1
      modifies this
      ensures Wf() && root == old(root) && patterns == old(patterns) && n <= nextId
      ensures ClosedFrom(states, n) && FreshEmpty(states, n) && Grows(old(states), old(level), states, level, n)
      ensures f == old(nextId) && f in states && n <= f && level[f] == h
      ensures states[f].edges == [(End, back), (AnyWild, f)]
      ensures Frozen(old(states), states, old(nextId))
    {
      f := AddState(n, h);
      ghost var s1, l1 := states, level;
      FrozenStep(old(states), old(states), s1, f, s1[f], f);
      Link(n, f, End, back);
      ghost var s2 := states;
      FrozenStep(old(states), s1, s2, f, s2[f], f);
      Link(n, f, AnyWild, f);
      FrozenStep(old(states), s2, states, f, states[f], f);
      GrowsTrans(old(states), old(level), s1, l1, s2, level, n);
      GrowsTrans(old(states), old(level), s2, level, states, level, n);
      KeysCons((End, back), []);
      PutNew([(End, back)], AnyWild, f);
    }

    /** `_generate_net` on a wildcard: a chain of `min_count` new states on
        `Wildcard`; a sequence wildcard also loops on `Wildcard` and becomes
        the last wildcard of its level, whose operands are no longer
        counted. */
    method WildcardStep(ghost n: nat, state: nat, term: Label, lw: seq<Option<nat>>, fs: seq<Fail>, oc: seq<int>)
        returns (state': nat, lw': seq<Option<nat>>, oc': seq<int>)
      requires term.Wild? && NetInv(n, state, lw, fs, oc)
      modifies this
      ensures NetInv(n, state', lw', fs, oc') && root == old(root) && patterns == old(patterns)
      ensures Grows(old(states), old(level), states, level, n) && nextId == old(nextId) + term.min
      ensures state' == if term.min == 0 then state else old(nextId) + term.min - 1
      ensures lw' == (if term.fixed then lw else lw[|lw| - 1 := Some(state')])
      ensures oc' == (if term.fixed then oc else oc[|oc| - 1 := -1])
      ensures !term.fixed ==> Get(states[state'].edges, AnyWild) == Some(state')
    {
      state' := WildcardChain(n, state, term.min, lw, fs, oc);
      lw', oc' := lw, oc;
      if !term.fixed {
        ghost var s0, l0 := states, level;
        Link(n, state', AnyWild, state');
        PutFacts(s0[state'].edges, AnyWild, state');
        GrowsTrans(old(states), old(level), s0, l0, states, level, n);
        StackGrow(s0, l0, states, level, n, lw, fs);
        StackSetWild(states, level, n, lw, fs, state');
        lw' := lw[|lw| - 1 := Some(state')];
        oc' := oc[|oc| - 1 := -1];
      }
    }

    /** The chain of `min_count` new states on `Wildcard` for a wildcard. */
    method WildcardChain(ghost n: nat, state: nat, min: nat, ghost lw: seq<Option<nat>>, ghost fs: seq<Fail>, ghost oc: seq<int>)
        returns (state': nat)
      requires NetInv(n, state, lw, fs, oc)
      modifies this
      ensures NetInv(n, state', lw, fs, oc) && root == old(root) && patterns == old(patterns)
      ensures Grows(old(states), old(level), states, level, n) && nextId == old(nextId) + min
      ensures state' == if min == 0 then state else old(nextId) + min - 1
    {
      state' := state;
      for i := 0 to min
        invariant NetInv(n, state', lw, fs, oc) && root == old(root) && patterns == old(patterns)
        invariant Grows(old(states), old(level), states, level, n) && nextId == old(nextId) + i
        invariant state' == if i == 0 then state else old(nextId) + i - 1
      {
        ghost var s0, l0 := states, level;
        state' := AddChild(n, state', AnyWild);
        GrowsTrans(old(states), old(level), s0, l0, states, level, n);
        StackGrow(s0, l0, states, level, n, lw, fs);
      }
    }

    /** The fail states `_generate_net` makes for an operation head one
        level below the stacks `lw` and `fs`: none when neither the last
        wildcard nor the fail state of the current level is true, and
        otherwise states that lead back on `OPERATION_END` to the last
        wildcard or, when there is none, to the fail state of the current
        operand position. Its lookup raises `IndexError` (`ok` false) exactly
        when that position is past the end of a list of fail states. */
    method MakeFail(ghost n: nat, arity: OpType, lw: seq<Option<nat>>, fs: seq<Fail>, oc: seq<int>) returns (ok: bool, fail: Fail)
      requires Wf() && n <= nextId && ClosedFrom(states, n) && FreshEmpty(states, n)
      requires |lw| == |fs| == |oc| > 0 && StackInv(states, level, n, lw, fs)
      modifies this
      ensures Wf() && root == old(root) && patterns == old(patterns) && n <= nextId
      ensures ClosedFrom(states, n) && FreshEmpty(states, n) && Grows(old(states), old(level), states, level, n)
      ensures ok <==> LastFailState(fs[|fs| - 1], oc[|oc| - 1]).Some?
      ensures ok ==> FailOn(states, level, n, fail, |fs|)
      ensures ok && !old(Truthy(lw[|lw| - 1]) || FailTruthy(fs[|fs| - 1])) ==> fail == NoFail && states == old(states)
      ensures ok && old(Truthy(lw[|lw| - 1]) || FailTruthy(fs[|fs| - 1])) ==> fail != NoFail
      ensures Frozen(old(states), states, old(nextId))
    {
      var top := |lw| - 1;
      fail := NoFail;
      ok := true;
      if Truthy(lw[top]) || FailTruthy(fs[top]) {
        var lfs := LastFailState(fs[top], oc[top]);
        if lfs.None? {
          ok := false;
          return;
        }
        var back := if Truthy(lw[top]) then lw[top].value else lfs.value.value;
        if arity.arityFixedSize {
          var ids := FixedFail(n, arity.arityMinCount, back, |lw|);
          fail := FailList(ids);
        } else {
          var f := StarFail(n, back, |lw|);
          fail := FailState(f);
        }
      } else {
        assert LastFailState(fs[top], oc[top]).Some?;
      }
    }

    /** `_generate_net` on an operation head: a child state one level down;
        when the level has a last wildcard or a fail state, a fail state for
        the new level that leads back to it on `OPERATION_END`. The stacks
        grow by one level. Looking up the fail state of the current operand
        position raises `IndexError` exactly when that position is past the
        end of a list of fail states. */
    method OperationStep(ghost n: nat, state: nat, term: Label, lw: seq<Option<nat>>, fs: seq<Fail>, oc: seq<int>)
        returns (ok: bool, state': nat, lw': seq<Option<nat>>, fs': seq<Fail>, oc': seq<int>)
      requires term.Head? && NetInv(n, state, lw, fs, oc)
      modifies this
      ensures Wf() && root == old(root) && patterns == old(patterns) && n <= nextId
      ensures ClosedFrom(states, n) && FreshEmpty(states, n) && Grows(old(states), old(level), states, level, n)
      ensures ok <==> LastFailState(fs[|fs| - 1], oc[|oc| - 1]).Some?
      ensures ok ==> NetInv(n, state', lw', fs', oc')
      ensures ok ==> lw' == lw + [None] && oc' == oc + [0] && |fs'| == |fs| + 1 && fs'[..|fs|] == fs
      ensures ok ==> state' == old(nextId) && state' in states && level[state'] == level[state] + 1
      ensures Get(states[state].edges, term) == Some(state')
    {
      state' := AddChild(n, state, term);
      PutFacts(old(states)[state].edges, term, state');
      StackGrow(old(states), old(level), states, level, n, lw, fs);
      ghost var s1, l1 := states, level;
      var fail;
      ok, fail := MakeFail(n, term.head, lw, fs, oc);
      lw', fs', oc' := lw + [None], fs + [fail], oc + [0];
      GrowsTrans(old(states), old(level), s1, l1, states, level, n);
      if ok {
        StackGrow(s1, l1, states, level, n, lw, fs);
        StackPush(states, level, n, lw, fs, fail);
      }
    }
  
    /** The end of a round of `_generate_net`: unless `state` is the last
        wildcard of its level, it gets an epsilon transition to that
        wildcard, or, when the level has no true last wildcard but a true
        fail state, to the fail state of the current operand position, whose
        lookup may raise `IndexError` (`ok` false). */
    method EpsilonStep(ghost n: nat, state: nat, lw: seq<Option<nat>>, fs: seq<Fail>, oc: seq<int>) returns (ok: bool)
      requires NetInv(n, state, lw, fs, oc)
      modifies this
      ensures Wf() && root == old(root) && patterns == old(patterns) && nextId == old(nextId) && level == old(level)
      ensures ClosedFrom(states, n) && FreshEmpty(states, n) && Grows(old(states), old(level), states, level, n)
      ensures Frozen(old(states), states, state)
      ensures ok ==> NetInv(n, state, lw, fs, oc)
      ensures var top := |lw| - 1;
              ok <==> !(lw[top] != Some(state) && !old(Truthy(lw[top])) && old(FailTruthy(fs[top])) &&
                        LastFailState(fs[top], oc[top]).None?)
      ensures var top := |lw| - 1;
              ok ==> Get(states[state].edges, Epsilon) ==
                     if lw[top] == Some(state) then old(Get(states[state].edges, Epsilon))
                     else if old(Truthy(lw[top])) then lw[top]
                     else if old(FailTruthy(fs[top])) then LastFailState(fs[top], oc[top]).value
                     else old(Get(states[state].edges, Epsilon))
    {
      var top := |lw| - 1;
      ok := true;
      if lw[top] != Some(state) {
        if Truthy(lw[top]) {
          Link(n, state, Epsilon, lw[top].value);
          PutFacts(old(states)[state].edges, Epsilon, lw[top].value);
        } else if FailTruthy(fs[top]) {
          var lfs := LastFailState(fs[top], oc[top]);
          if lfs.None? {
            ok := false;
          } else {
            Link(n, state, Epsilon, lfs.value.value);
            PutFacts(old(states)[state].edges, Epsilon, lfs.value.value);
          }
        }
      }
      FrozenStep(old(states), old(states), states, state, states[state], state);
      StackGrow(old(states), old(level), states, level, n, lw, fs);
    }

    /** The body of the loop of `_generate_net` up to the epsilon
        transition: a wildcard, an operation head, `OPERATION_END` (which
        pops the stacks, raising `IndexError` at the outermost level) or any
        other term (a child state). */
    method TermStep(ghost n: nat, state: nat, term: Label, lw: seq<Option<nat>>, fs: seq<Fail>, oc: seq<int>)
        returns (ok: bool, state': nat, lw': seq<Option<nat>>, fs': seq<Fail>, oc': seq<int>)
      requires NetInv(n, state, lw, fs, oc)
      modifies this
      ensures Wf() && root == old(root) && patterns == old(patterns) && n <= nextId
      ensures ClosedFrom(states, n) && FreshEmpty(states, n) && Grows(old(states), old(level), states, level, n)
      ensures ok <==> !(term.End? && |lw| == 1) && !(term.Head? && LastFailState(fs[|fs| - 1], oc[|oc| - 1]).None?)
      ensures ok ==> NetInv(n, state', lw', fs', oc') && |lw'| == |lw| + Delta(term)
      ensures ok && !term.Wild? ==> state' == old(nextId) && Get(states[state].edges, term) == Some(state')
      ensures ok && term.Wild? ==> nextId == old(nextId) + term.min && fs' == fs &&
                                   state' == (if term.min == 0 then state else old(nextId) + term.min - 1)
      ensures ok && term.Wild? && !term.fixed ==> Get(states[state'].edges, AnyWild) == Some(state') && lw'[|lw'| - 1] == Some(state')
    {
      ok := true;
      if term.Wild? {
        state', lw', oc' := WildcardStep(n, state, term, lw, fs, oc);
        fs' := fs;
      } else if term.Head? {
        ok, state', lw', fs', oc' := OperationStep(n, state, term, lw, fs, oc);
      } else {
        state' := AddChild(n, state, term);
        PutFacts(old(states)[state].edges, term, state');
        StackGrow(old(states), old(level), states, level, n, lw, fs);
        lw', fs', oc' := lw, fs, oc;
        if term.End? {
          if |lw| == 1 {
            ok := false;
          } else {
            StackPop(states, level, n, lw, fs);
            lw', fs', oc' := lw[..|lw| - 1], fs[..|fs| - 1], oc[..|oc| - 1];
          }
        }
      }
    }

    /** One round of the loop of `_generate_net` for the term `term`: the
        operand count of the current level goes up unless it is switched off,
        then `TermStep` and `EpsilonStep`. */
    method NetStep(ghost n: nat, state: nat, term: Label, lw: seq<Option<nat>>, fs: seq<Fail>, oc: seq<int>)
        returns (ok: bool, state': nat, lw': seq<Option<nat>>, fs': seq<Fail>, oc': seq<int>)
      requires NetInv(n, state, lw, fs, oc)
      modifies this
      ensures Wf() && root == old(root) && patterns == old(patterns) && n <= nextId
      ensures ClosedFrom(states, n) && FreshEmpty(states, n) && Grows(old(states), old(level), states, level, n)
      ensures ok ==> NetInv(n, state', lw', fs', oc') && |lw'| == |lw| + Delta(term)
      ensures term.End? && |lw| == 1 ==> !ok
      ensures ok && !term.Wild? ==> state' == old(nextId) && Get(states[state].edges, term) == Some(state')
    {
      var top := |oc| - 1;
      var counts := if oc[top] >= 0 then oc[top := oc[top] + 1] else oc;
      ghost var s0, l0 := states, level;
      ok, state', lw', fs', oc' := TermStep(n, state, term, lw, fs, counts);
      if ok {
        ghost var s1, l1 := states, level;
        ok := EpsilonStep(n, state', lw', fs', oc');
        GrowsTrans(s0, l0, s1, l1, states, level, n);
        if !term.Wild? {
          assert state < state';
        }
      }
    }
  
    /** The loop of `_generate_net` over the terms of the flatterm, from the
        root `r0` of a net that starts at id `n`; `ok` is false when a
        round raised `IndexError`. */
    method NetLoop(ghost n: nat, r0: nat, flatterm: seq<Label>) returns (ok: bool, state: nat)
      requires NetInv(n, r0, [None], [NoFail], [0])
      modifies this
      ensures Wf() && root == old(root) && patterns == old(patterns) && n <= nextId
      ensures ClosedFrom(states, n) && FreshEmpty(states, n) && Grows(old(states), old(level), states, level, n)
      ensures ok ==> state in states && n <= state
    {
      state := r0;
      var lw, fs, oc := [None], [NoFail], [0];
      for i := 0 to |flatterm|
        invariant NetInv(n, state, lw, fs, oc) && root == old(root) && patterns == old(patterns)
        invariant Grows(old(states), old(level), states, level, n)
      {
        ghost var s0, l0 := states, level;
        ok, state, lw, fs, oc := NetStep(n, state, flatterm[i], lw, fs, oc);
        GrowsTrans(old(states), old(level), s0, l0, states, level, n);
        if !ok {
          return;
        }
      }
      ok := true;
    }

    /** `_generate_net`: the NFA of the flatterm, the states created by this
        call, is built by `NetLoop`; its last state gets the payload
        `[finalLabel]`, and the result is the subset construction of the NFA
        from its root. The NFA is closed and graded, its root is on level 0,
        and it holds the pattern index in its payloads and nothing else. */
    method GenerateNet(flatterm: seq<Label>, finalLabel: nat) returns (res: NetResult, ghost nfa: map<nat, State>, ghost dfa: map<set<nat>, nat>)
      requires Wf()
      modifies this
      ensures Wf() && root == old(root) && patterns == old(patterns)
      ensures Extends(old(states), states) && Extends(old(level), level)
      ensures AllPayloads(states) <= AllPayloads(old(states)) + {finalLabel}
      ensures res.Net? ==> old(nextId) in nfa && forall k :: k in nfa ==> old(nextId) <= k && k in states
      ensures res.Net? ==> Closed(nfa) && Graded(nfa, level) && level[old(nextId)] == 0 && AllPayloads(nfa) == {finalLabel}
      ensures res.Net? ==> EpsClosure(nfa, {old(nextId)}) in dfa && res.id == dfa[EpsClosure(nfa, {old(nextId)})]
      ensures res.Net? ==> res.id in states && level[res.id] == 0
      ensures res.Net? ==> forall t :: t in dfa ==> Complete(nfa, states, dfa, t) && Elems(states[dfa[t]].payload) == PayloadUnion(nfa, t)
    {
      var n0 := nextId;
      ClosedFromBelow(states, n0);
      var r0 := AddState(n0, 0);
      ghost var s1, l1 := states, level;
      var ok, state := NetLoop(n0, r0, flatterm);
      GrowsTrans(old(states), old(level), s1, l1, states, level, n0);
      PayloadsGrow(old(states), old(level), states, level, n0);
      FrozenAll(old(states), states, n0);
      nfa, dfa := map[], map[];
      if !ok {
        res := IndexError;
        return;
      }
      ghost var s3 := states;
      var r;
      r, nfa, dfa := FinishNet(n0, r0, state, finalLabel);
      FrozenTrans(old(states), s3, states, n0);
      FrozenAll(old(states), states, n0);
      res := Net(r);
    }

    /** The end of `_generate_net`: the payload of the last state and the
        subset construction of the NFA, the states from id `n` on. */
    method FinishNet(n: nat, r0: nat, state: nat, finalLabel: nat) returns (r: nat, ghost nfa: map<nat, State>, ghost dfa: map<set<nat>, nat>)
      requires Wf() && ClosedFrom(states, n) && FreshEmpty(states, n)
      requires r0 in states && n <= r0 && level[r0] == 0 && state in states && n <= state
      modifies this
      ensures Wf() && root == old(root) && patterns == old(patterns)
      ensures Frozen(old(states), states, n) && Extends(old(level), level)
      ensures AllPayloads(states) <= AllPayloads(old(states)) + {finalLabel}
      ensures r0 in nfa && forall k :: k in nfa ==> n <= k && k in states
      ensures Closed(nfa) && Graded(nfa, level) && AllPayloads(nfa) == {finalLabel}
      ensures EpsClosure(nfa, {r0}) in dfa && r == dfa[EpsClosure(nfa, {r0})]
      ensures r in states && level[r] == 0
      ensures forall t :: t in dfa ==> Complete(nfa, states, dfa, t) && Elems(states[dfa[t]].payload) == PayloadUnion(nfa, t)
    {
      SetPayload(state, [finalLabel]);
      ClosedFromPayload(old(states), state, [finalLabel], n);
      FinalPayload(old(states), states, state, finalLabel, n);
      FrozenStep(old(states), old(states), states, state, states[state], n);
      assert Elems([finalLabel]) == {finalLabel};
      var net := From(states, n);
      nfa := net;
      FromClosed(states, n);
      GradedSub(nfa, states, level);
      ghost var s2, l2 := states, level;
      r, dfa := ConvertNfaToDfa(r0, net);
      GradedMore(nfa, l2, level);
      FrozenAll(s2, states, nextId);
    }

    /** One label of the loop of `_product_net`: the child of the item `c`
        on `l` gets a product state, created with the child's payload and
        queued when its key is new, and the product state of `c` gets a
        transition on `l` to it. */
    method ProductLabel(net: map<nat, State>, ghost nlevel: map<nat, int>, ghost d: int,
                        pm: map<(nat, nat, int), nat>, ghost its: map<(nat, nat, int), Item>, ghost sub: map<nat, (nat, nat, int)>,
                        queue: seq<Item>, c: Item, l: Label, ghost ls: set<Label>, ghost n0: nat)
      returns (pm': map<(nat, nat, int), nat>, ghost its': map<(nat, nat, int), Item>, ghost sub': map<nat, (nat, nat, int)>,
               queue': seq<Item>)
      requires Wf() && Closed(net) && Graded(net, nlevel) && Spread(net, nlevel, d)
      requires ProdInv(net, nlevel, d, states, level, pm, its, sub, queue, Some(c), n0, nextId)
      requires PEdges(net, states, pm, its, Key(c), ls) && l in ItemLabels(net, c)
      modifies this
      ensures Wf() && root == old(root) && patterns == old(patterns) && old(nextId) <= nextId
      ensures ProdInv(net, nlevel, d, states, level, pm', its', sub', queue', Some(c), n0, nextId)
      ensures PEdges(net, states, pm', its', Key(c), ls + {l})
      ensures Extends(pm, pm') && |pm| <= |pm'| && (|queue'| == |queue| || |pm| < |pm'|)
      ensures Frozen(old(states), states, n0) && Extends(old(level), level)
      ensures AllPayloads(states) <= AllPayloads(old(states)) + AllPayloads(net)
    {
      ghost var st0 := states;
      pm', its', sub', queue' := ProductTarget(net, nlevel, d, pm, its, sub, queue, c, l, ls, n0);
      ghost var st1 := states;
      var key := Key(Child(net, c, l).0);
      var p := pm'[Key(c)];
      var e := pm'[key];
      SetEdge(p, l, e);
      FrozenFresh(st1, p, State(Put(st1[p].edges, l, e), st1[p].payload), n0);
      FrozenTrans(st0, st1, states, n0);
      PAddEdge(net, nlevel, d, st1, level, pm', its', sub', queue', c, ls, n0, nextId, l, states);
    }

    /** The product state of the child of `c` on `l`: the one of its key, or
        a new one, created with the child's payload and queued. */
    method ProductTarget(net: map<nat, State>, ghost nlevel: map<nat, int>, ghost d: int,
                         pm: map<(nat, nat, int), nat>, ghost its: map<(nat, nat, int), Item>, ghost sub: map<nat, (nat, nat, int)>,
                         queue: seq<Item>, c: Item, l: Label, ghost ls: set<Label>, ghost n0: nat)
      returns (pm': map<(nat, nat, int), nat>, ghost its': map<(nat, nat, int), Item>, ghost sub': map<nat, (nat, nat, int)>,
               queue': seq<Item>)
      requires Wf() && Closed(net) && Graded(net, nlevel) && Spread(net, nlevel, d)
      requires ProdInv(net, nlevel, d, states, level, pm, its, sub, queue, Some(c), n0, nextId)
      requires PEdges(net, states, pm, its, Key(c), ls) && l in ItemLabels(net, c)
      modifies this
      ensures Wf() && root == old(root) && patterns == old(patterns) && old(nextId) <= nextId
      ensures ProdInv(net, nlevel, d, states, level, pm', its', sub', queue', Some(c), n0, nextId)
      ensures PEdges(net, states, pm', its', Key(c), ls)
      ensures Key(Child(net, c, l).0) in pm' && its'[Key(Child(net, c, l).0)] == Child(net, c, l).0
      ensures pm'[Key(c)] in states && pm'[Key(Child(net, c, l).0)] in states && n0 <= pm'[Key(c)]
      ensures level[pm'[Key(Child(net, c, l).0)]] == level[pm'[Key(c)]] + Delta(l)
      ensures Extends(pm, pm') && |pm| <= |pm'| && (|queue'| == |queue| || |pm| < |pm'|)
      ensures Frozen(old(states), states, n0) && Extends(old(level), level)
      ensures AllPayloads(states) <= AllPayloads(old(states)) + AllPayloads(net)
    {
      var (child, payload) := Child(net, c, l);
      assert Known(pm, Key(c));
      ChildOk(net, nlevel, c, l, d);
      ChildPayload(net, c, l);
      var key := Key(child);
      pm', its', sub', queue' := pm, its, sub, queue;
      if key !in pm {
        ghost var st0, lv0 := states, level;
        var id := NewState(payload, ItemLevel(nlevel, child));
        FrozenFresh(st0, id, states[id], n0);
        PNewNode(net, nlevel, d, st0, lv0, pm, its, sub, queue, c, ls, n0, id, child, states, level);
        ExtendsFresh(pm, key, id);
        pm', its', sub', queue' := pm[key := id], its[key := child], sub[id := key], queue + [child];
      } else {
        assert Known(pm, key);
        KeyUnique(net, nlevel, its[key], child, d);
      }
      assert Known(pm', Key(c)) && Known(pm', key);
      assert PNode(net, nlevel, d, states, level, pm', its', sub', Key(c), n0, nextId);
      assert PNode(net, nlevel, d, states, level, pm', its', sub', key, n0, nextId);
    }

    /** The inner loop of `_product_net` for the item `c` just taken from
        the queue: one `ProductLabel` for every label of `c`, in an order
        left open. */
    method ProductState(net: map<nat, State>, ghost nlevel: map<nat, int>, ghost d: int,
                        pm: map<(nat, nat, int), nat>, ghost its: map<(nat, nat, int), Item>, ghost sub: map<nat, (nat, nat, int)>,
                        queue: seq<Item>, c: Item, ghost n0: nat)
      returns (pm': map<(nat, nat, int), nat>, ghost its': map<(nat, nat, int), Item>, ghost sub': map<nat, (nat, nat, int)>,
               queue': seq<Item>)
      requires LabelLoop(net, nlevel, d, pm, states, level, |queue|, c, ItemLabels(net, c), {}, pm, its, sub, queue, n0)
      modifies this
      ensures root == old(root) && patterns == old(patterns) && old(nextId) <= nextId
      ensures LabelLoop(net, nlevel, d, pm, old(states), old(level), |queue|, c, {}, ItemLabels(net, c), pm', its', sub', queue', n0)
    {
      var rest := ItemLabels(net, c);
      ghost var done: set<Label> := {};
      pm', its', sub', queue' := pm, its, sub, queue;
      while rest != {}
        invariant root == old(root) && patterns == old(patterns) && old(nextId) <= nextId
        invariant LabelLoop(net, nlevel, d, pm, old(states), old(level), |queue|, c, rest, done, pm', its', sub', queue', n0)
        decreases rest
      {
        rest, done, pm', its', sub', queue' := ProductLabelRound(net, nlevel, d, pm, old(states), old(level), |queue|,
                                                                 rest, done, pm', its', sub', queue', c, n0);
      }
    }

    /** What the inner loop of `_product_net` keeps: the product state of
        `c` has its transitions on the labels `done` taken so far, and the
        construction has grown from `pm0`, `states0` and `level0`. */
    ghost predicate LabelLoop(net: map<nat, State>, nlevel: map<nat, int>, d: int,
                              pm0: map<(nat, nat, int), nat>, states0: map<nat, State>, level0: map<nat, int>, q0: nat,
                              c: Item, rest: set<Label>, done: set<Label>,
                              pm: map<(nat, nat, int), nat>, its: map<(nat, nat, int), Item>, sub: map<nat, (nat, nat, int)>,
                              queue: seq<Item>, n0: nat)
      reads this
    {
      rest <= ItemLabels(net, c) && done == ItemLabels(net, c) - rest &&
      Wf() && Closed(net) && Graded(net, nlevel) && Spread(net, nlevel, d) &&
      ProdInv(net, nlevel, d, states, level, pm, its, sub, queue, Some(c), n0, nextId) &&
      PEdges(net, states, pm, its, Key(c), done) &&
      Extends(pm0, pm) && |pm0| <= |pm| && (|queue| == q0 || |pm0| < |pm|) &&
      Frozen(states0, states, n0) && Extends(level0, level) &&
      AllPayloads(states) <= AllPayloads(states0) + AllPayloads(net)
    }

    /** One round of the inner loop of `_product_net`: a label is taken
        from `rest` and processed. The facts the loop keeps are stated
        relative to the loop's start (`pm0`, `states0`, `level0`, `q0`). */
    method ProductLabelRound(net: map<nat, State>, ghost nlevel: map<nat, int>, ghost d: int,
                             ghost pm0: map<(nat, nat, int), nat>, ghost states0: map<nat, State>, ghost level0: map<nat, int>, ghost q0: nat,
                             rest: set<Label>, ghost done: set<Label>,
                             pm: map<(nat, nat, int), nat>, ghost its: map<(nat, nat, int), Item>, ghost sub: map<nat, (nat, nat, int)>,
                             queue: seq<Item>, c: Item, ghost n0: nat)
      returns (rest': set<Label>, ghost done': set<Label>,
               pm': map<(nat, nat, int), nat>, ghost its': map<(nat, nat, int), Item>, ghost sub': map<nat, (nat, nat, int)>,
               queue': seq<Item>)
      requires rest != {} && LabelLoop(net, nlevel, d, pm0, states0, level0, q0, c, rest, done, pm, its, sub, queue, n0)
      modifies this
      ensures root == old(root) && patterns == old(patterns) && old(nextId) <= nextId
      ensures rest' < rest && LabelLoop(net, nlevel, d, pm0, states0, level0, q0, c, rest', done', pm', its', sub', queue', n0)
    {
      var l :| l in rest;
      ghost var st0, lv0 := states, level;
      pm', its', sub', queue' := ProductLabel(net, nlevel, d, pm, its, sub, queue, c, l, done, n0);
      ExtendsTrans(pm0, pm, pm');
      ExtendsTrans(level0, lv0, level);
      FrozenTrans(states0, st0, states, n0);
      MoveOne(ItemLabels(net, c), rest, done, l);
      rest' := rest - {l};
      done' := done + {l};
    }

    /** What the main loop of `_product_net` keeps: the invariant of the
        construction between two items, with the key map grown from `pm1`
        within the finite `KeySpace` and the states grown from `states0`. */
    ghost predicate ProductLoop(net: map<nat, State>, nlevel: map<nat, int>, d: int, states0: map<nat, State>,
                                pm1: map<(nat, nat, int), nat>,
                                pm: map<(nat, nat, int), nat>, its: map<(nat, nat, int), Item>, sub: map<nat, (nat, nat, int)>,
                                queue: seq<Item>, n0: nat)
      reads this
    {
      Wf() && Closed(net) && Graded(net, nlevel) && Spread(net, nlevel, d) &&
      ProdInv(net, nlevel, d, states, level, pm, its, sub, queue, None, n0, nextId) &&
      Extends(pm1, pm) && |pm| <= |KeySpace(net.Keys, d)| &&
      Frozen(states0, states, n0) && Extends(nlevel, level) &&
      AllPayloads(states) <= AllPayloads(states0) && AllPayloads(net) <= AllPayloads(states0)
    }

    /** One round of the main loop of `_product_net`: the first item of the
        queue is taken off and processed. */
    method ProductRound(net: map<nat, State>, ghost nlevel: map<nat, int>, ghost d: int, ghost states0: map<nat, State>,
                        ghost pm1: map<(nat, nat, int), nat>,
                        pm: map<(nat, nat, int), nat>, ghost its: map<(nat, nat, int), Item>, ghost sub: map<nat, (nat, nat, int)>,
                        queue: seq<Item>, ghost n0: nat)
      returns (pm': map<(nat, nat, int), nat>, ghost its': map<(nat, nat, int), Item>, ghost sub': map<nat, (nat, nat, int)>,
               queue': seq<Item>)
      requires queue != [] && ProductLoop(net, nlevel, d, states0, pm1, pm, its, sub, queue, n0)
      modifies this
      ensures root == old(root) && patterns == old(patterns) && old(nextId) <= nextId
      ensures ProductLoop(net, nlevel, d, states0, pm1, pm', its', sub', queue', n0)
      ensures |pm| <= |pm'| && (|pm| < |pm'| || |queue'| < |queue|)
    {
      var c := queue[0];
      PPop(net, nlevel, d, states, level, pm, its, sub, queue, n0, nextId);
      ghost var st0, lv0 := states, level;
      pm', its', sub', queue' := ProductState(net, nlevel, d, pm, its, sub, queue[1..], c, n0);
      PFinish(net, nlevel, d, states, level, pm', its', sub', queue', c, n0, nextId);
      PBound(net, nlevel, d, states, level, pm', its', sub', queue', None, n0, nextId);
      ExtendsTrans(pm1, pm, pm');
      ExtendsTrans(nlevel, lv0, level);
      FrozenTrans(states0, st0, states, n0);
    }

    /** `_product_net`: the product of the nets from `state1` and `state2`,
        built breadth first from the item of the two roots. Every key met
        gets one new state with a transition on each label of its item to
        the state of the child's key, and the item stored under that key
        is the child itself; levels follow the items, a state of an item
        where neither net sits on a wildcard holds the payloads of both its
        states, and no state that existed before is changed. */
    method ProductNet(state1: nat, state2: nat)
      returns (r: nat, ghost pm: map<(nat, nat, int), nat>, ghost its: map<(nat, nat, int), Item>)
      requires Wf() && state1 in states && state2 in states && level[state1] == level[state2]
      modifies this
      ensures Wf() && root == old(root) && patterns == old(patterns)
      ensures Extends(old(states), states) && Extends(old(level), level) && old(nextId) <= nextId
      ensures AllPayloads(states) <= AllPayloads(old(states))
      ensures r == old(nextId) && r in states && level[r] == old(level)[state1]
      ensures ProductOf(old(states), states, pm, its, r, state1, state2)
      ensures forall k :: k in pm ==> old(nextId) <= pm[k] && pm[k] in level && level[pm[k]] == ItemLevel(old(level), its[k])
    {
      var n0 := nextId;
      var net := states;
      ghost var nlevel := level;
      var it := Item(Some(state1), Some(state2), 0, 0);
      var keys, queue;
      ghost var d, sub;
      d, keys, its, sub, queue := ProductStart(net, it);
      ghost var pm1 := keys;
      keys, its := ProductQueue(net, nlevel, d, net, pm1, keys, its, sub, queue, n0, it, state1, state2);
      r := keys[Key(it)];
      pm := keys;
    }

    /** The start of `_product_net`: a new root state for the item of the
        two roots, which waits alone in the queue. */
    method ProductStart(net: map<nat, State>, it: Item)
      returns (ghost d: int, pm: map<(nat, nat, int), nat>, ghost its: map<(nat, nat, int), Item>,
               ghost sub: map<nat, (nat, nat, int)>, queue: seq<Item>)
      requires Wf() && net == states && it.s1.Some? && it.s2.Some? && it.depth == 0 && it.fixed == 0
      requires it.s1.value in states && it.s2.value in states && level[it.s1.value] == level[it.s2.value]
      modifies this
      ensures root == old(root) && patterns == old(patterns) && old(nextId) <= nextId
      ensures ProductLoop(net, old(level), d, net, pm, pm, its, sub, queue, old(nextId))
      ensures Key(it) in pm && pm[Key(it)] == old(nextId) && ItemOk(net, old(level), it, d) && queue == [it]
    {
      var n0 := nextId;
      ghost var nlevel := level;
      d := MaxLevel(level, states.Keys) - MinLevel(level, states.Keys);
      SpreadExists(states, level);
      var id := NewState([], level[it.s1.value]);
      queue := [it];
      pm := map[Key(it) := id];
      its := map[Key(it) := it];
      sub := map[id := Key(it)];
      PInit(net, nlevel, d, states, level, it, id, n0);
      FrozenFresh(net, id, states[id], n0);
      PayloadsExtend(net, net);
      PBound(net, nlevel, d, states, level, pm, its, sub, queue, None, n0, nextId);
    }

    /** The main loop of `_product_net`: items are taken off the front of
        the queue until it is empty. */
    method ProductQueue(net: map<nat, State>, ghost nlevel: map<nat, int>, ghost d: int, ghost states0: map<nat, State>,
                        ghost pm1: map<(nat, nat, int), nat>,
                        pm: map<(nat, nat, int), nat>, ghost its: map<(nat, nat, int), Item>, ghost sub: map<nat, (nat, nat, int)>,
                        queue: seq<Item>, ghost n0: nat, ghost it: Item, ghost s1: nat, ghost s2: nat)
      returns (pm': map<(nat, nat, int), nat>, ghost its': map<(nat, nat, int), Item>)
      requires ProductLoop(net, nlevel, d, states0, pm1, pm, its, sub, queue, n0)
      requires forall k :: k in states0 ==> k < n0
      requires it == Item(Some(s1), Some(s2), 0, 0) && Key(it) in pm1 && pm1[Key(it)] == n0 && ItemOk(net, nlevel, it, d)
      modifies this
      ensures root == old(root) && patterns == old(patterns) && old(nextId) <= nextId && Wf()
      ensures Extends(states0, states) && Extends(nlevel, level) && AllPayloads(states) <= AllPayloads(states0)
      ensures ProductOf(net, states, pm', its', n0, s1, s2)
      ensures forall k :: k in pm' ==> n0 <= pm'[k] && pm'[k] in level && level[pm'[k]] == ItemLevel(nlevel, its'[k])
    {
      var q := queue;
      ghost var sub' := sub;
      pm', its' := pm, its;
      while q != []
        invariant root == old(root) && patterns == old(patterns) && old(nextId) <= nextId
        invariant ProductLoop(net, nlevel, d, states0, pm1, pm', its', sub', q, n0)
        decreases |KeySpace(net.Keys, d)| - |pm'|, |q|
      {
        pm', its', sub', q := ProductRound(net, nlevel, d, states0, pm1, pm', its', sub', q, n0);
      }
      FrozenAll(states0, states, n0);
      PResult(net, nlevel, d, states, level, pm', its', sub', n0, nextId, it, s1, s2);
    }

    /** The net of one pattern in `add`: a chain from
        `_generate_syntactic_net` when the flatterm is syntactic or a single
        atom, otherwise the automaton of `_generate_net`. */
    method PatternNet(pattern: seq<Label>, index: nat) returns (g: NetResult)
      requires Wf()
      modifies this
      ensures Wf() && root == old(root) && patterns == old(patterns)
      ensures Extends(old(states), states) && Extends(old(level), level)
      ensures AllPayloads(states) <= AllPayloads(old(states)) + {index}
      ensures g.IndexError? ==> !IsSyntactic(pattern) && |pattern| != 1
      ensures g.Net? ==> g.id in states && level[g.id] == 0
      ensures g.Net? && (IsSyntactic(pattern) || |pattern| == 1) ==>
                g.id == old(nextId) && IsChain(states, g.id, ChainLabels(pattern), [index])
    {
      if IsSyntactic(pattern) || |pattern| == 1 {
        var r := GenerateSyntacticNet(pattern, index);
        g := Net(r);
      } else {
        ghost var nfa, dfa;
        g, nfa, dfa := GenerateNet(pattern, index);
      }
    }

    /** The end of `add`: the root becomes the product of the old root with
        the net from `net`, or that net itself while the old root has no
        transition. */
    method CombineRoot(net: nat) returns (ghost pm: map<(nat, nat, int), nat>, ghost its: map<(nat, nat, int), Item>)
      requires Wf() && net in states && level[net] == 0 && root in states && level[root] == 0
      modifies this
      ensures Wf() && patterns == old(patterns) && root in states && level[root] == 0
      ensures Extends(old(states), states) && Extends(old(level), level)
      ensures AllPayloads(states) <= AllPayloads(old(states))
      ensures !old(Truthy(Some(root))) ==> root == net && states == old(states)
      ensures old(Truthy(Some(root))) ==> net < root && ProductOf(old(states), states, pm, its, root, old(root), net)
    {
      if Truthy(Some(root)) {
        var p;
        p, pm, its := ProductNet(root, net);
        SetRoot(p);
      } else {
        pm, its := map[], map[];
        SetRoot(net);
      }
    }

    /** `add` for a pattern given as a flatterm: the pattern and its final
        label are appended to `_patterns`, its net is built with the pattern
        index as payload, and the root becomes the product of the old root
        with that net, or that net itself while the old root has no
        transition. */
    method Add(pattern: seq<Label>, finalLabel: Option<T>) returns (res: AddResult, ghost net: nat)
      requires Valid()
      modifies this
      ensures Valid() && patterns == old(patterns) + [(pattern, finalLabel)]
      ensures Extends(old(states), states) && Extends(old(level), level)
      ensures AllPayloads(states) <= AllPayloads(old(states)) + {|old(patterns)|}
      ensures res.AddIndexError? ==> root == old(root) && !IsSyntactic(pattern) && |pattern| != 1
      ensures res.Added? ==> res.index == |old(patterns)| && net in states && level[net] == 0
      ensures res.Added? && (IsSyntactic(pattern) || |pattern| == 1) ==>
                net == old(nextId) && IsChain(states, net, ChainLabels(pattern), [res.index])
      ensures res.Added? && !old(Truthy(Some(root))) ==> root == net
      ensures res.Added? && old(Truthy(Some(root))) ==> net < root
      ensures res.Added? && Terminal(pattern) && Balanced(pattern) && pattern != [] && (IsSyntactic(pattern) || |pattern| == 1) ==>
                Finds(states, root, pattern, res.index)
    {
      var index := |patterns|;
      patterns := patterns + [(pattern, finalLabel)];
      ghost var s0, l0 := states, level;
      var g := PatternNet(pattern, index);
      if g.IndexError? {
        res, net := AddIndexError, 0;
        return;
      }
      net := g.id;
      res := Added(index);
      ghost var s1, l1, r1, truthy := states, level, root, Truthy(Some(root));
      ghost var pm, its := CombineRoot(g.id);
      if IsSyntactic(pattern) || |pattern| == 1 {
        ChainKept(s1, states, g.id, ChainLabels(pattern), [index]);
        if Terminal(pattern) && Balanced(pattern) && pattern != [] {
          ChainLabelsTerminal(pattern);
          CombinedFinds(s1, states, pm, its, truthy, r1, root, g.id, pattern, index);
        }
      }
      ExtendsTrans(s0, s1, states);
      ExtendsTrans(l0, l1, level);
      BelowAll(AllPayloads(states), AllPayloads(s0), index, |patterns|);
    }

    /** `_match` on a flatterm subject: the walk `Run` from the root, with
        the payload of the root as the first collected entries. */
    method Match(subject: seq<Label>, collect: bool, first: bool) returns (res: MatchResult)
      requires Valid()
      ensures res == Run(states, subject, 0, root, 0, states[root].payload, collect, first)
      ensures res.Matched? ==> forall x :: x in res.indices ==> x < |patterns|
    {
      RunIndices(states, subject, 0, root, 0, states[root].payload, collect, first);
      ghost var run := Run(states, subject, 0, root, 0, states[root].payload, collect, first);
      assert run.Matched? ==> forall x :: x in run.indices ==> x in Elems(run.indices) && x < |patterns|;
      var state := root;
      var depth := 0;
      var result := states[root].payload;
      for i := 0 to |subject|
        invariant state in states
        invariant Run(states, subject, i, state, depth, result, collect, first) ==
                  Run(states, subject, 0, root, 0, states[root].payload, collect, first)
      {
        var term := subject[i];
        if depth > 0 {
          if term.Head? {
            depth := depth + 1;
          } else if term == End {
            depth := depth - 1;
          }
        } else {
          if first && states[state].payload != [] {
            assert Run(states, subject, i, state, depth, result, collect, first) == Matched(states[state].payload);
            return Matched(states[state].payload);
          }
          var es := states[state].edges;
          var next := Get(es, term);
          if next.Some? {
            state := next.value;
          } else if term.Head? {
            depth := 1;
            var w := Get(es, AnyWild);
            if w.None? {
              assert MatchMove(es, term) == Stuck;
              assert Run(states, subject, i, state, 0, result, collect, first) == Matched(if collect then result else []);
              return Matched(if collect then result else []);
            }
            state := w.value;
          } else if term == End {
            assert MatchMove(es, term) == EndFail;
            return Matched([]);
          } else if term.Sym? {
            var key := SymbolWildcardKey(es, term);
            var w := Get(es, if key.Some? then key.value else AnyWild);
            if w.None? {
              assert MatchMove(es, term) == Stuck;
              return Matched(if collect then result else []);
            }
            state := w.value;
          } else {
            return TypeError;
          }
          result := result + states[state].payload;
        }
      }
      res := Matched(if collect then result else states[state].payload);
    }
  }

  /** A pattern added to any net is found again: after `add` of a terminal
      syntactic flatterm, `_match(flatterm, collect=True)` returns a list
      that holds its index, whatever patterns the net held before. */
  method MatchAfterAdd<T>(dn: DiscriminationNet<T>, pattern: seq<Label>, finalLabel: Option<T>)
    returns (added: AddResult, res: MatchResult)
    requires dn.Valid() && Terminal(pattern) && Balanced(pattern) && pattern != [] && IsSyntactic(pattern)
    modifies dn
    ensures added == Added(|old(dn.patterns)|)
    ensures res.Matched? && added.index in res.indices
  {
    ghost var net;
    added, net := dn.Add(pattern, finalLabel);
    res := dn.Match(pattern, true, false);
  }

  /** A syntactic pattern of symbols and operations, added to a new net,
      matches itself: `_match` on its own flatterm returns its index. */
  method MatchOwnPattern<T>(pattern: seq<Label>, finalLabel: Option<T>) returns (res: MatchResult)
    requires Terminal(pattern) && IsSyntactic(pattern)
    ensures res == Matched([0])
  {
    var dn := new DiscriminationNet<T>();
    var added, net := dn.Add(pattern, finalLabel);
    ChainLabelsTerminal(pattern);
    ChainRun(dn.states, pattern, net, 0, 0, dn.states[net].payload, false, false);
    res := dn.Match(pattern, false, false);
  }
}
