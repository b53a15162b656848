/** The `DiscriminationNet` of patternmatcher/syntactic.py, the older form
    of the net in matchpy. Its transitions reach terminal states that are
    plain lists of final labels rather than states with a payload;
    `_State` has no payload at all. Here a terminal list is a state without
    transitions whose payload lists indices into `finals`, and the set
    `terminals` records which states are lists. The states, the id
    counter and the root `_root` are kept in a matchpy net object that
    serves only as their store. */
module LegacyNets {
  import opened Terms
  import opened Sequences
  import opened Transitions
  import opened FlatTerms
  import opened Closures
  import opened SubsetConstruction
  import opened ProductNets
  import opened DiscriminationNets
  import opened LegacySubsets
  import opened LegacyProducts
  import opened LegacyProductNets

  /** A final label: the one given to `add`, or the pattern itself when
      none was given. */
  datatype Final<T> = Given(value: T) | Pattern(pattern: Expression)

  /** The labels of the chain for the last atom of a syntactic flatterm:
      a wildcard reads `min_count - 1` transitions on `Wildcard` and one more
      into the list (`range` of a negative count is empty), any other atom
      one transition on itself. */
  function LastUnit(t: Label): seq<Label> {
    if t.Wild? then Copies(AnyWild, if t.min == 0 then 0 else t.min - 1) + [AnyWild] else [t]
  }

  /** The labels of the chain the legacy `_generate_syntactic_net` builds. */
  function LegacyChainLabels(ft: seq<Label>): seq<Label>
    requires ft != []
  {
    ChainLabels(ft[..|ft| - 1]) + LastUnit(ft[|ft| - 1])
  }

  /** The flatterm with a last wildcard of minimum count zero counted as
      one: the chain it gives is the legacy one. */
  function RaiseLast(ft: seq<Label>): seq<Label>
    requires ft != []
  {
    var t := ft[|ft| - 1];
    ft[..|ft| - 1] + [if t.Wild? && t.min == 0 then Wild(1, t.fixed) else t]
  }

  lemma LegacyLabels(ft: seq<Label>)
    requires ft != []
    ensures LegacyChainLabels(ft) == ChainLabels(RaiseLast(ft))
  {
    var u := RaiseLast(ft);
    assert u[..|u| - 1] == ft[..|ft| - 1];
    assert Copies(AnyWild, 0) + [AnyWild] == Copies(AnyWild, 1);
  }

  /** What the legacy `match` returns: the list it reaches, or the
      `TypeError` of a non-terminal atom, or the `AssertionError` raised
      when the subject ends before a list is reached. */
  datatype LegacyMatchResult = Found(indices: seq<nat>) | MatchTypeError | MatchAssertionError

  /** The legacy `match` from position `i` of the subject in state `s`:
      the first list reached is the result; a missing transition gives
      `[]`. */
  function LRun(states: map<nat, State>, terms: set<nat>, ft: seq<Label>, i: nat, s: nat, depth: int): LegacyMatchResult
    requires Closed(states) && s in states && i <= |ft|
    decreases |ft| - i
  {
    if i == |ft| then MatchAssertionError
    else if depth > 0 then LRun(states, terms, ft, i + 1, s, depth + Delta(ft[i]))
    else
      match MatchMove(states[s].edges, ft[i])
      case Go(t, d) => if t in terms then Found(states[t].payload) else LRun(states, terms, ft, i + 1, t, d)
      case Stuck => Found([])
      case EndFail => Found([])
      case NonTerminal => MatchTypeError
  }

  /** Every index `match` returns is in a payload of the net. */
  lemma {:induction false} LRunIndices(states: map<nat, State>, terms: set<nat>, ft: seq<Label>, i: nat, s: nat, depth: int)
    requires Closed(states) && s in states && i <= |ft|
    ensures LRun(states, terms, ft, i, s, depth).Found? ==> Elems(LRun(states, terms, ft, i, s, depth).indices) <= AllPayloads(states)
    decreases |ft| - i
  {
    if i < |ft| {
      if depth > 0 {
        LRunIndices(states, terms, ft, i + 1, s, depth + Delta(ft[i]));
      } else {
        var m := MatchMove(states[s].edges, ft[i]);
        if m.Go? {
          if m.target in terms {
            assert forall x :: x in states[m.target].payload ==> x in AllPayloads(states);
          } else {
            LRunIndices(states, terms, ft, i + 1, m.target, m.depth);
          }
        }
      }
    }
  }

  /** The chain of a terminal flatterm reads the flatterm itself. */
  lemma TerminalSplit(ft: seq<Label>)
    requires ft != [] && Terminal(ft)
    ensures Terminal(ft[..|ft| - 1]) && LastUnit(ft[|ft| - 1]) == [ft[|ft| - 1]]
  {
    var p := ft[..|ft| - 1];
    forall i | 0 <= i < |p|
      ensures p[i].Sym? || p[i].Head? || p[i].End?
    {
      assert p[i] == ft[i];
    }
    assert ft[|ft| - 1].Sym? || ft[|ft| - 1].Head? || ft[|ft| - 1].End?;
  }

  lemma LegacyChainTerminal(ft: seq<Label>)
    requires ft != [] && Terminal(ft)
    ensures LegacyChainLabels(ft) == ft
  {
    var p, x := ft[..|ft| - 1], ft[|ft| - 1];
    TerminalSplit(ft);
    ChainLabelsTerminal(p);
    assert LegacyChainLabels(ft) == p + [x];
    assert p + [x] == ft;
  }

  /** The chain of `_generate_syntactic_net` for `ft` starts at `net` and
      ends in a terminal list `[index]`. */
  ghost predicate ChainTo(states: map<nat, State>, terms: set<nat>, net: nat, ft: seq<Label>, index: nat)
    requires ft != []
  {
    IsChain(states, net, LegacyChainLabels(ft), [index]) && net + |LegacyChainLabels(ft)| in terms
  }

  /** The chain built for a terminal flatterm matches that flatterm: the
      walk from its first state reaches the list at its end. */
  lemma {:induction false} LChainRun(states: map<nat, State>, terms: set<nat>, ft: seq<Label>, r: nat, idx: nat, i: nat)
    requires Closed(states) && ListsShape(states, terms) && Terminal(ft) && IsChain(states, r, ft, [idx])
    requires r + |ft| in terms && i < |ft|
    ensures r + i in states && LRun(states, terms, ft, i, r + i, 0) == Found([idx])
    decreases |ft| - i
  {
    assert states[r + i] == State([(ft[i], r + i + 1)], []);
    assert Get(states[r + i].edges, ft[i]) == Some(r + i + 1);
    if i + 1 < |ft| {
      assert states[r + i + 1].edges != [];
      LChainRun(states, terms, ft, r, idx, i + 1);
    }
  }

  /** The chain of a terminal flatterm, read from its start, leads to its
      list. */
  lemma ChainToRun(states: map<nat, State>, terms: set<nat>, net: nat, ft: seq<Label>, index: nat)
    requires Closed(states) && ListsShape(states, terms) && ft != [] && Terminal(ft) && ChainTo(states, terms, net, ft, index)
    ensures LRun(states, terms, ft, 0, net, 0) == Found([index])
  {
    LegacyChainTerminal(ft);
    LChainRun(states, terms, ft, net, index, 0);
  }

  /** The flatterm of an expression is a single atom or ends with
      `OPERATION_END`. */
  lemma {:induction false} FlatIterEnds(e: Expression)
    requires Supported(e)
    ensures |FlatIter(e)| == 1 || (FlatIter(e) != [] && FlatIter(e)[|FlatIter(e)| - 1] == End)
  {
    match e
    case Variable(_, x) =>
      FlatIterEnds(x);
    case Operation(_, _) =>
      FlatBalanced(e);
    case _ =>
  }

  lemma FlatTermEnds(e: Expression)
    requires Supported(e)
    ensures FlatTerm(e) != []
    ensures |FlatTerm(e)| == 1 || FlatTerm(e)[|FlatTerm(e)| - 1] == End
  {
    var s := FlatIter(e);
    FlatIterEnds(e);
    if |s| == 1 {
      assert s[..|s| - 1] == [];
      assert FlatTerm(e) == Step(Merge([]), s[0]);
    } else {
      var a := s[..|s| - 1];
      assert a + [End] + [] == s;
      MergeSplit(a, End, []);
    }
  }

  /** No prefix of the flatterm of an expression without its last atom
      closes more operations than it opened. */
  lemma FlatTermOpen(e: Expression)
    requires Supported(e)
    ensures FlatTerm(e) != [] && NeverCloses(FlatTerm(e)[..|FlatTerm(e)| - 1])
  {
    FlatTermEnds(e);
    FlatBalanced(e);
    MergeBalanced(FlatIter(e));
    var ft := FlatTerm(e);
    var p := ft[..|ft| - 1];
    forall k | 0 <= k <= |p| ensures Depth(p[..k]) >= 0 {
      assert p[..k] == ft[..k];
    }
  }

  /** A net that only grows keeps its lists. */
  lemma ListsKept(a: map<nat, State>, b: map<nat, State>, terms: set<nat>)
    requires ListsShape(a, terms) && Extends(a, b)
    ensures ListsShape(b, terms)
  {
  }

  /** States changed only from id `n` on keep the lists below `n`. */
  lemma ListsKept2(a: map<nat, State>, b: map<nat, State>, terms: set<nat>, n: nat)
    requires ListsShape(a, terms) && Frozen(a, b, n) && forall x :: x in terms ==> x < n
    ensures ListsShape(b, terms)
  {
  }

  /** One label of the loop of `_convert_nfa_to_dfa` for the set `c`:
      a label on which some NFA state of `c` goes straight to the list
      `tm` leads there from the DFA state of `c`; any other label leads
      to the DFA state of the target set, created empty and queued when the
      set is new. */
  method LProcessLabel<T>(st: DiscriminationNet<T>, terms: set<nat>, nfa: map<nat, State>, ghost nlevel: map<nat, int>, ghost tm: nat,
                          dfa: map<set<nat>, nat>, ghost sub: map<nat, set<nat>>,
                          queue: seq<set<nat>>, c: set<nat>, l: Label, ghost ls: set<Label>, ghost n0: nat)
    returns (dfa': map<set<nat>, nat>, ghost sub': map<nat, set<nat>>, queue': seq<set<nat>>)
    requires st.Wf() && ListsShape(st.states, terms) && Closed(nfa) && Graded(nfa, nlevel) && ListShape(nfa, terms, tm)
    requires Extends(nlevel, st.level) && forall x :: x in terms ==> x < n0
    requires LDfaInv(nfa, nlevel, st.states, st.level, dfa, sub, tm, queue, Some(c), n0, st.nextId)
    requires LEdgesDone(nfa, tm, st.states, dfa, c, ls) && l in NfaLabels(nfa, c)
    modifies st
    ensures st.Wf() && ListsShape(st.states, terms) && st.root == old(st.root) && old(st.nextId) <= st.nextId
    ensures LDfaInv(nfa, nlevel, st.states, st.level, dfa', sub', tm, queue', Some(c), n0, st.nextId)
    ensures LEdgesDone(nfa, tm, st.states, dfa', c, ls + {l})
    ensures Extends(dfa, dfa') && |dfa| <= |dfa'| && (|queue'| == |queue| || |dfa| < |dfa'|)
    ensures Frozen(old(st.states), st.states, n0) && Extends(old(st.level), st.level)
    ensures AllPayloads(st.states) <= AllPayloads(old(st.states))
  {
    var e;
    e, dfa', sub', queue' := LTarget(st, terms, nfa, nlevel, tm, dfa, sub, queue, c, l, ls, n0);
    ghost var st1 := st.states;
    var d := dfa'[c];
    assert Tracked(dfa', c);
    assert LDfaNode(nfa, nlevel, st1, st.level, dfa', sub', tm, c, n0, st.nextId);
    st.SetEdge(d, l, e);
    FrozenFresh(st1, d, st.states[d], n0);
    FrozenTrans(old(st.states), st1, st.states, n0);
    LAddEdge(nfa, nlevel, st1, st.level, dfa', sub', tm, queue', c, ls, n0, st.nextId, l, e, st.states);
    ListsKept2(old(st.states), st.states, terms, n0);
  }

  /** The target of the DFA state of `c` on `l`: the list `tm`, or the DFA
      state of the target set, which is created empty and queued when the
      set is new. The target lies one nesting step `Delta(l)` from the DFA
      state of `c`. */
  method LTarget<T>(st: DiscriminationNet<T>, terms: set<nat>, nfa: map<nat, State>, ghost nlevel: map<nat, int>, ghost tm: nat,
                    dfa: map<set<nat>, nat>, ghost sub: map<nat, set<nat>>,
                    queue: seq<set<nat>>, c: set<nat>, l: Label, ghost ls: set<Label>, ghost n0: nat)
    returns (e: nat, dfa': map<set<nat>, nat>, ghost sub': map<nat, set<nat>>, queue': seq<set<nat>>)
    requires st.Wf() && ListsShape(st.states, terms) && Closed(nfa) && Graded(nfa, nlevel) && ListShape(nfa, terms, tm)
    requires Extends(nlevel, st.level) && forall x :: x in terms ==> x < n0
    requires LDfaInv(nfa, nlevel, st.states, st.level, dfa, sub, tm, queue, Some(c), n0, st.nextId)
    requires LEdgesDone(nfa, tm, st.states, dfa, c, ls) && l in NfaLabels(nfa, c)
    modifies st
    ensures st.Wf() && ListsShape(st.states, terms) && st.root == old(st.root) && old(st.nextId) <= st.nextId
    ensures LDfaInv(nfa, nlevel, st.states, st.level, dfa', sub', tm, queue', Some(c), n0, st.nextId)
    ensures LEdgesDone(nfa, tm, st.states, dfa', c, ls)
    ensures HitsList(nfa, tm, c, l) ==> e == tm && dfa' == dfa && queue' == queue
    ensures !HitsList(nfa, tm, c, l) ==> TargetSpec(nfa, c, l) in dfa' && e == dfa'[TargetSpec(nfa, c, l)]
    ensures c in dfa' && e in st.states && st.level[e] == st.level[dfa'[c]] + Delta(l)
    ensures Extends(dfa, dfa') && |dfa| <= |dfa'| && (|queue'| == |queue| || |dfa| < |dfa'|)
    ensures Frozen(old(st.states), st.states, n0) && Extends(old(st.level), st.level)
    ensures AllPayloads(st.states) <= AllPayloads(old(st.states))
  {
    var target := LegacyTargetSet(nfa, terms, tm, c, l);
    assert Tracked(dfa, c);
    ghost var h := st.level[dfa[c]];
    dfa', sub', queue' := dfa, sub, queue;
    if target.ListTarget? {
      ghost var x :| x in c && x in nfa && Get(nfa[x].edges, l) == Some(tm);
      assert (l, tm) in nfa[x].edges;
      e := target.list;
    } else {
      e, dfa', sub', queue' := LSetTarget(st, terms, nfa, nlevel, tm, dfa, sub, queue, c, l, ls, n0, target.ids);
    }
  }

  /** `LTarget` for a label that leads to the set `ts` of NFA states: its
      DFA state, created and queued when `ts` is new. */
  method LSetTarget<T>(st: DiscriminationNet<T>, terms: set<nat>, nfa: map<nat, State>, ghost nlevel: map<nat, int>, ghost tm: nat,
                       dfa: map<set<nat>, nat>, ghost sub: map<nat, set<nat>>,
                       queue: seq<set<nat>>, c: set<nat>, l: Label, ghost ls: set<Label>, ghost n0: nat, ts: set<nat>)
    returns (e: nat, dfa': map<set<nat>, nat>, ghost sub': map<nat, set<nat>>, queue': seq<set<nat>>)
    requires st.Wf() && ListsShape(st.states, terms) && Closed(nfa) && Graded(nfa, nlevel) && ListShape(nfa, terms, tm)
    requires Extends(nlevel, st.level) && forall x :: x in terms ==> x < n0
    requires LDfaInv(nfa, nlevel, st.states, st.level, dfa, sub, tm, queue, Some(c), n0, st.nextId)
    requires LEdgesDone(nfa, tm, st.states, dfa, c, ls) && l in NfaLabels(nfa, c)
    requires ts == TargetSpec(nfa, c, l) && tm !in ts
    modifies st
    ensures st.Wf() && ListsShape(st.states, terms) && st.root == old(st.root) && old(st.nextId) <= st.nextId
    ensures LDfaInv(nfa, nlevel, st.states, st.level, dfa', sub', tm, queue', Some(c), n0, st.nextId)
    ensures LEdgesDone(nfa, tm, st.states, dfa', c, ls)
    ensures ts in dfa' && e == dfa'[ts]
    ensures c in dfa' && e in st.states && st.level[e] == st.level[dfa'[c]] + Delta(l)
    ensures Extends(dfa, dfa') && |dfa| <= |dfa'| && (|queue'| == |queue| || |dfa| < |dfa'|)
    ensures Frozen(old(st.states), st.states, n0) && Extends(old(st.level), st.level)
    ensures AllPayloads(st.states) <= AllPayloads(old(st.states))
  {
    assert Tracked(dfa, c);
    ghost var h := st.level[dfa[c]];
    dfa', sub', queue' := dfa, sub, queue;
    TargetLevel(nfa, nlevel, c, l, h);
    TargetNonEmpty(nfa, c, l);
    if ts !in dfa {
      ghost var st0, lv0 := st.states, st.level;
      var id := st.NewState([], h + Delta(l));
      FrozenFresh(st0, id, st.states[id], n0);
      LNewNode(nfa, nlevel, st0, lv0, dfa, sub, tm, queue, c, ls, n0, id, ts, st.states, st.level);
      ExtendsFresh(dfa, ts, id);
      dfa', sub', queue' := dfa[ts := id], sub[id := ts], queue + [ts];
      ListsKept2(old(st.states), st.states, terms, n0);
    }
    e := dfa'[ts];
    assert Tracked(dfa', ts);
    assert LDfaNode(nfa, nlevel, st.states, st.level, dfa', sub', tm, ts, n0, st.nextId);
    ghost var y :| y in ts;
    assert st.level[e] == nlevel[y];
  }

  /** One round of the inner loop of `_convert_nfa_to_dfa`: a label is
      taken from `rest` and, unless it is `EPSILON`, processed. The facts
      the loop keeps are stated relative to the loop's start (`dfa0`,
      `states0`, `level0`, `q0`). */
  method LLabelRound<T>(st: DiscriminationNet<T>, terms: set<nat>, nfa: map<nat, State>, ghost nlevel: map<nat, int>, ghost tm: nat,
                        ghost dfa0: map<set<nat>, nat>, ghost states0: map<nat, State>, ghost level0: map<nat, int>, ghost q0: nat,
                        rest: set<Label>, ghost done: set<Label>, dfa: map<set<nat>, nat>, ghost sub: map<nat, set<nat>>,
                        queue: seq<set<nat>>, c: set<nat>, ghost n0: nat)
    returns (rest': set<Label>, ghost done': set<Label>, dfa': map<set<nat>, nat>, ghost sub': map<nat, set<nat>>,
             queue': seq<set<nat>>)
    requires st.Wf() && ListsShape(st.states, terms) && Closed(nfa) && Graded(nfa, nlevel) && ListShape(nfa, terms, tm)
    requires Extends(nlevel, st.level) && forall x :: x in terms ==> x < n0
    requires LDfaInv(nfa, nlevel, st.states, st.level, dfa, sub, tm, queue, Some(c), n0, st.nextId)
    requires LEdgesDone(nfa, tm, st.states, dfa, c, done)
    requires rest != {} && rest <= NfaLabels(nfa, c) && done == (NfaLabels(nfa, c) - rest) - {Epsilon}
    requires Extends(dfa0, dfa) && |dfa0| <= |dfa| && (|queue| == q0 || |dfa0| < |dfa|)
    requires Frozen(states0, st.states, n0) && Extends(level0, st.level)
    requires AllPayloads(st.states) <= AllPayloads(states0)
    modifies st
    ensures st.Wf() && ListsShape(st.states, terms) && st.root == old(st.root) && old(st.nextId) <= st.nextId
    ensures LDfaInv(nfa, nlevel, st.states, st.level, dfa', sub', tm, queue', Some(c), n0, st.nextId)
    ensures LEdgesDone(nfa, tm, st.states, dfa', c, done')
    ensures rest' < rest && done' == (NfaLabels(nfa, c) - rest') - {Epsilon}
    ensures Extends(dfa0, dfa') && |dfa0| <= |dfa'| && (|queue'| == q0 || |dfa0| < |dfa'|)
    ensures Frozen(states0, st.states, n0) && Extends(level0, st.level)
    ensures AllPayloads(st.states) <= AllPayloads(states0)
  {
    var l :| l in rest;
    SkipStep(NfaLabels(nfa, c), rest, done, l);
    rest' := rest - {l};
    done', dfa', sub', queue' := done, dfa, sub, queue;
    if l != Epsilon {
      ghost var st0, lv0 := st.states, st.level;
      dfa', sub', queue' := LProcessLabel(st, terms, nfa, nlevel, tm, dfa, sub, queue, c, l, done, n0);
      ExtendsTrans(dfa0, dfa, dfa');
      ExtendsTrans(level0, lv0, st.level);
      FrozenTrans(states0, st0, st.states, n0);
      done' := done + {l};
    }
  }

  /** The inner loop of `_convert_nfa_to_dfa` for the set `c` just taken
      from the queue: one `LProcessLabel` for every label of its NFA states
      except `EPSILON`. */
  method LProcessState<T>(st: DiscriminationNet<T>, terms: set<nat>, nfa: map<nat, State>, ghost nlevel: map<nat, int>, ghost tm: nat,
                          dfa: map<set<nat>, nat>, ghost sub: map<nat, set<nat>>, queue: seq<set<nat>>, c: set<nat>, ghost n0: nat)
    returns (dfa': map<set<nat>, nat>, ghost sub': map<nat, set<nat>>, queue': seq<set<nat>>)
    requires st.Wf() && ListsShape(st.states, terms) && Closed(nfa) && Graded(nfa, nlevel) && ListShape(nfa, terms, tm)
    requires Extends(nlevel, st.level) && forall x :: x in terms ==> x < n0
    requires LDfaInv(nfa, nlevel, st.states, st.level, dfa, sub, tm, queue, Some(c), n0, st.nextId)
    requires LEdgesDone(nfa, tm, st.states, dfa, c, {})
    modifies st
    ensures st.Wf() && ListsShape(st.states, terms) && st.root == old(st.root) && old(st.nextId) <= st.nextId
    ensures LDfaInv(nfa, nlevel, st.states, st.level, dfa', sub', tm, queue', None, n0, st.nextId)
    ensures Extends(dfa, dfa') && |dfa| <= |dfa'| && (|queue'| == |queue| || |dfa| < |dfa'|)
    ensures Frozen(old(st.states), st.states, n0) && Extends(old(st.level), st.level)
    ensures AllPayloads(st.states) <= AllPayloads(old(st.states))
  {
    var rest := NfaLabels(nfa, c);
    ghost var done: set<Label> := {};
    dfa', sub', queue' := dfa, sub, queue;
    while rest != {}
      invariant rest <= NfaLabels(nfa, c) && done == (NfaLabels(nfa, c) - rest) - {Epsilon}
      invariant st.Wf() && ListsShape(st.states, terms) && st.root == old(st.root) && old(st.nextId) <= st.nextId
      invariant Extends(nlevel, st.level)
      invariant LDfaInv(nfa, nlevel, st.states, st.level, dfa', sub', tm, queue', Some(c), n0, st.nextId)
      invariant LEdgesDone(nfa, tm, st.states, dfa', c, done)
      invariant Extends(dfa, dfa') && |dfa| <= |dfa'| && (|queue'| == |queue| || |dfa| < |dfa'|)
      invariant Frozen(old(st.states), st.states, n0) && Extends(old(st.level), st.level)
      invariant AllPayloads(st.states) <= AllPayloads(old(st.states))
      decreases rest
    {
      rest, done, dfa', sub', queue' := LLabelRound(st, terms, nfa, nlevel, tm, dfa, old(st.states), old(st.level), |queue|,
                                                    rest, done, dfa', sub', queue', c, n0);
      ExtendsTrans(nlevel, old(st.level), st.level);
    }
    assert Tracked(dfa', c);
    LFinishInv(nfa, nlevel, st.states, st.level, dfa', sub', tm, queue', c, n0, st.nextId);
  }

  /** One round of the main loop of `_convert_nfa_to_dfa`: the last set of
      the queue is taken off and processed. */
  method LQueueRound<T>(st: DiscriminationNet<T>, terms: set<nat>, nfa: map<nat, State>, ghost nlevel: map<nat, int>, ghost tm: nat,
                        ghost states0: map<nat, State>, ghost dfa1: map<set<nat>, nat>, dfa: map<set<nat>, nat>,
                        ghost sub: map<nat, set<nat>>, queue: seq<set<nat>>, ghost n0: nat)
    returns (dfa': map<set<nat>, nat>, ghost sub': map<nat, set<nat>>, queue': seq<set<nat>>)
    requires st.Wf() && ListsShape(st.states, terms) && Closed(nfa) && Graded(nfa, nlevel) && ListShape(nfa, terms, tm) && queue != []
    requires forall x :: x in terms ==> x < n0
    requires LDfaInv(nfa, nlevel, st.states, st.level, dfa, sub, tm, queue, None, n0, st.nextId)
    requires Extends(dfa1, dfa) && Frozen(states0, st.states, n0) && Extends(nlevel, st.level)
    requires AllPayloads(st.states) <= AllPayloads(states0)
    modifies st
    ensures st.Wf() && ListsShape(st.states, terms) && st.root == old(st.root) && old(st.nextId) <= st.nextId
    ensures LDfaInv(nfa, nlevel, st.states, st.level, dfa', sub', tm, queue', None, n0, st.nextId)
    ensures Extends(dfa1, dfa') && Frozen(states0, st.states, n0) && Extends(nlevel, st.level)
    ensures AllPayloads(st.states) <= AllPayloads(states0)
    ensures |dfa'| <= |PowerSet(nfa.Keys)| && |dfa| <= |dfa'| && (|dfa| < |dfa'| || |queue'| < |queue|)
  {
    var c := queue[|queue| - 1];
    LPopInv(nfa, nlevel, st.states, st.level, dfa, sub, tm, queue, n0, st.nextId);
    ghost var st0, lv0 := st.states, st.level;
    dfa', sub', queue' := LProcessState(st, terms, nfa, nlevel, tm, dfa, sub, queue[..|queue| - 1], c, n0);
    LDfaBound(nfa, nlevel, st.states, st.level, dfa', sub', tm, queue', None, n0, st.nextId);
    ExtendsTrans(dfa1, dfa, dfa');
    ExtendsTrans(nlevel, lv0, st.level);
    FrozenTrans(states0, st0, st.states, n0);
  }

  /** The legacy `_convert_nfa_to_dfa`: the subset construction over the
      NFA `nfa` of one pattern, whose one list is `tm`. Every set of NFA
      states reached from the closure of `root0` gets a DFA state without
      payload whose transitions are those `LComplete` demands; the DFA
      state of the closure is returned. No state that existed before is
      changed, and the lists stay lists. */
  method LConvertNfaToDfa<T>(st: DiscriminationNet<T>, terms: set<nat>, root0: nat, nfa: map<nat, State>, ghost tm: nat)
    returns (r: nat, ghost dfa: map<set<nat>, nat>)
    requires st.Wf() && ListsShape(st.states, terms) && root0 in nfa && root0 != tm && Closed(nfa) && Extends(nfa, st.states)
    requires ListShape(nfa, terms, tm)
    modifies st
    ensures st.Wf() && ListsShape(st.states, terms) && st.root == old(st.root)
    ensures Extends(old(st.states), st.states) && Extends(old(st.level), st.level) && old(st.nextId) <= st.nextId
    ensures AllPayloads(st.states) <= AllPayloads(old(st.states))
    ensures EpsClosure(nfa, {root0}) in dfa && r == dfa[EpsClosure(nfa, {root0})]
    ensures r in st.states && r !in terms && st.level[r] == st.level[root0]
    ensures forall t :: t in dfa ==> LComplete(nfa, tm, st.states, dfa, t) && tm !in t && dfa[t] !in terms &&
                                     old(st.nextId) <= dfa[t] && st.states[dfa[t]].payload == []
  {
    ghost var n0 := st.nextId;
    ghost var nlevel := st.level;
    GradedSub(nfa, st.states, st.level);
    var newRoot := EpsilonClosure(nfa, {root0});
    ClosureLevel(nfa, nlevel, {root0}, nlevel[root0]);
    EpsClosureLeast(nfa, {root0});
    NoListInClosure(nfa, terms, tm, {root0});
    var id := st.NewState([], nlevel[root0]);
    var queue := [newRoot];
    var newStates := map[newRoot := id];
    ghost var sub := map[id := newRoot];
    LInitInv(nfa, nlevel, st.states, st.level, tm, newRoot, id, n0);
    FrozenFresh(old(st.states), id, st.states[id], n0);
    ListsKept2(old(st.states), st.states, terms, n0);
    while queue != []
      invariant st.Wf() && ListsShape(st.states, terms) && st.root == old(st.root) && n0 <= st.nextId
      invariant LDfaInv(nfa, nlevel, st.states, st.level, newStates, sub, tm, queue, None, n0, st.nextId)
      invariant Extends(map[newRoot := id], newStates) && |newStates| <= |PowerSet(nfa.Keys)|
      invariant Frozen(old(st.states), st.states, n0) && Extends(nlevel, st.level)
      invariant AllPayloads(st.states) <= AllPayloads(old(st.states))
      decreases |PowerSet(nfa.Keys)| - |newStates|, |queue|
    {
      newStates, sub, queue := LQueueRound(st, terms, nfa, nlevel, tm, old(st.states), map[newRoot := id], newStates, sub, queue, n0);
    }
    r := newStates[newRoot];
    dfa := newStates;
    FrozenAll(old(st.states), st.states, n0);
    assert Tracked(dfa, newRoot);
    assert LDfaNode(nfa, nlevel, st.states, st.level, dfa, sub, tm, newRoot, n0, st.nextId);
    LDoneInv(nfa, nlevel, st.states, st.level, dfa, sub, tm, n0, st.nextId);
  }

  /** The legacy `fail_states` stack holds only single fail states:
      every operation gets the fail state of an operation of variable
      arity. */
  ghost predicate NoLists(fs: seq<Fail>) {
    forall i :: 0 <= i < |fs| ==> !fs[i].FailList?
  }

  /** The legacy `_generate_net` counts no operands; the stack of counts
      the matchpy steps it shares take is all zeros. */
  function Zeros(m: nat): (r: seq<int>)
    ensures |r| == m && forall i :: 0 <= i < m ==> r[i] == 0
  {
    seq(m, i => 0)
  }

  /** No prefix closes more operations than it opened. */
  ghost predicate NeverCloses(s: seq<Label>) {
    forall k :: 0 <= k <= |s| ==> Depth(s[..k]) >= 0
  }

  /** What the legacy `_generate_net` returns: the DFA root with the list
      its last transition reaches, the `IndexError` of the stacks, or the
      `AssertionError` on a flatterm that ends in a wildcard. */
  datatype LNetResult = LNet(id: nat, list: nat) | LNetIndexError | LNetAssertionError

  /** The fail state for an operation head one level below the stacks
      `lw` and `fs`: none when neither the last wildcard nor the fail
      state of the current level is true; otherwise a new state that leads
      back on `OPERATION_END` to the last wildcard or, when that is not
      true, to the fail state, and loops on `Wildcard`. */
  method LMakeFail<T>(st: DiscriminationNet<T>, ghost n: nat, lw: seq<Option<nat>>, fs: seq<Fail>) returns (fail: Fail)
    requires st.Wf() && n <= st.nextId && ClosedFrom(st.states, n) && FreshEmpty(st.states, n)
    requires |lw| == |fs| > 0 && StackInv(st.states, st.level, n, lw, fs) && NoLists(fs)
    modifies st
    ensures st.Wf() && st.root == old(st.root) && n <= st.nextId
    ensures ClosedFrom(st.states, n) && FreshEmpty(st.states, n) && Grows(old(st.states), old(st.level), st.states, st.level, n)
    ensures FailOn(st.states, st.level, n, fail, |fs|) && !fail.FailList?
    ensures Frozen(old(st.states), st.states, old(st.nextId))
    ensures var top := |lw| - 1;
            !old(st.Truthy(lw[top]) || st.FailTruthy(fs[top])) ==> fail == NoFail && st.states == old(st.states)
    ensures var top := |lw| - 1;
            old(st.Truthy(lw[top]) || st.FailTruthy(fs[top])) ==>
              fail == FailState(old(st.nextId)) &&
              st.states[fail.id].edges == [(End, if old(st.Truthy(lw[top])) then lw[top].value else fs[top].id), (AnyWild, fail.id)]
  {
    var top := |lw| - 1;
    fail := NoFail;
    if st.Truthy(lw[top]) || st.FailTruthy(fs[top]) {
      var back := if st.Truthy(lw[top]) then lw[top].value else fs[top].id;
      assert back in FailIds(fs[top]) || lw[top] == Some(back);
      var f := st.StarFail(n, back, |lw|);
      fail := FailState(f);
    }
  }

  /** The legacy `_generate_net` on an operation head: a child state one
      level down, and the stacks grow by one level with `LMakeFail`'s fail
      state. */
  method LOperationStep<T>(st: DiscriminationNet<T>, ghost n: nat, state: nat, term: Label, lw: seq<Option<nat>>, fs: seq<Fail>)
    returns (state': nat, fs': seq<Fail>)
    requires term.Head? && st.NetInv(n, state, lw, fs, Zeros(|fs|)) && NoLists(fs)
    modifies st
    ensures st.NetInv(n, state', lw + [None], fs', Zeros(|fs'|)) && NoLists(fs') && st.root == old(st.root)
    ensures Grows(old(st.states), old(st.level), st.states, st.level, n)
    ensures |fs'| == |fs| + 1 && fs'[..|fs|] == fs
    ensures state' == old(st.nextId) && Get(st.states[state].edges, term) == Some(state')
  {
    state' := st.AddChild(n, state, term);
    PutFacts(old(st.states)[state].edges, term, state');
    StackGrow(old(st.states), old(st.level), st.states, st.level, n, lw, fs);
    ghost var s1, l1 := st.states, st.level;
    var fail := LMakeFail(st, n, lw, fs);
    fs' := fs + [fail];
    GrowsTrans(old(st.states), old(st.level), s1, l1, st.states, st.level, n);
    StackGrow(s1, l1, st.states, st.level, n, lw, fs);
    StackPush(st.states, st.level, n, lw, fs, fail);
    assert fs'[..|fs|] == fs;
  }

  /** The body of the loop of the legacy `_generate_net` up to the
      epsilon transition: a wildcard (as in matchpy), an operation head,
      `OPERATION_END` (which pops the stacks; at the outermost level the
      lookup that follows raises `IndexError`) or any other term (a child
      state). */
  method LTermStep<T>(st: DiscriminationNet<T>, ghost n: nat, state: nat, term: Label, lw: seq<Option<nat>>, fs: seq<Fail>)
    returns (ok: bool, state': nat, lw': seq<Option<nat>>, fs': seq<Fail>)
    requires st.NetInv(n, state, lw, fs, Zeros(|fs|)) && NoLists(fs)
    modifies st
    ensures st.Wf() && st.root == old(st.root) && n <= st.nextId
    ensures ClosedFrom(st.states, n) && FreshEmpty(st.states, n) && Grows(old(st.states), old(st.level), st.states, st.level, n)
    ensures ok <==> !(term.End? && |lw| == 1)
    ensures ok ==> st.NetInv(n, state', lw', fs', Zeros(|fs'|)) && NoLists(fs') && |lw'| == |lw| + Delta(term)
    ensures ok && !term.Wild? ==> state' == old(st.nextId) && Get(st.states[state].edges, term) == Some(state')
    ensures ok && term.Wild? ==> st.nextId == old(st.nextId) + term.min && fs' == fs &&
                                 state' == (if term.min == 0 then state else old(st.nextId) + term.min - 1)
    ensures ok && term.Wild? && !term.fixed ==> Get(st.states[state'].edges, AnyWild) == Some(state') && lw'[|lw'| - 1] == Some(state')
  {
    ok := true;
    if term.Wild? {
      var oc;
      state', lw', oc := st.WildcardStep(n, state, term, lw, fs, Zeros(|fs|));
      fs' := fs;
    } else if term.Head? {
      state', fs' := LOperationStep(st, n, state, term, lw, fs);
      lw' := lw + [None];
    } else {
      state' := st.AddChild(n, state, term);
      PutFacts(old(st.states)[state].edges, term, state');
      StackGrow(old(st.states), old(st.level), st.states, st.level, n, lw, fs);
      lw', fs' := lw, fs;
      if term.End? {
        if |lw| == 1 {
          ok := false;
        } else {
          StackPop(st.states, st.level, n, lw, fs);
          lw', fs' := lw[..|lw| - 1], fs[..|fs| - 1];
        }
      }
    }
  }

  /** One round of the loop of the legacy `_generate_net`: `LTermStep`,
      then the epsilon transition of matchpy's `EpsilonStep`, which cannot
      fail here because no entry of `fail_states` is a list. */
  method LNetStep<T>(st: DiscriminationNet<T>, ghost n: nat, state: nat, term: Label, lw: seq<Option<nat>>, fs: seq<Fail>)
    returns (ok: bool, state': nat, lw': seq<Option<nat>>, fs': seq<Fail>)
    requires st.NetInv(n, state, lw, fs, Zeros(|fs|)) && NoLists(fs)
    modifies st
    ensures st.Wf() && st.root == old(st.root) && n <= st.nextId
    ensures ClosedFrom(st.states, n) && FreshEmpty(st.states, n) && Grows(old(st.states), old(st.level), st.states, st.level, n)
    ensures ok <==> !(term.End? && |lw| == 1)
    ensures ok ==> st.NetInv(n, state', lw', fs', Zeros(|fs'|)) && NoLists(fs') && |lw'| == |lw| + Delta(term)
    ensures ok && !term.Wild? ==> state' == old(st.nextId) && Get(st.states[state].edges, term) == Some(state')
  {
    ok, state', lw', fs' := LTermStep(st, n, state, term, lw, fs);
    if ok {
      ghost var s1, l1 := st.states, st.level;
      assert LastFailState(fs'[|fs'| - 1], 0).Some?;
      ok := st.EpsilonStep(n, state', lw', fs', Zeros(|fs'|));
      GrowsTrans(old(st.states), old(st.level), s1, l1, st.states, st.level, n);
      if !term.Wild? {
        assert state < state';
      }
    }
  }

  /** The loop of the legacy `_generate_net` over the terms of `ft`, from
      the root `r0` of a net that starts at id `n`: it raises `IndexError`
      (`ok` false) exactly when some prefix closes more operations than it
      opened, and otherwise ends in a state on the nesting level of `ft`. */
  method LNetLoop<T>(st: DiscriminationNet<T>, ghost n: nat, r0: nat, ft: seq<Label>) returns (ok: bool, state: nat)
    requires st.NetInv(n, r0, [None], [NoFail], [0])
    modifies st
    ensures st.Wf() && st.root == old(st.root) && n <= st.nextId
    ensures ClosedFrom(st.states, n) && FreshEmpty(st.states, n) && Grows(old(st.states), old(st.level), st.states, st.level, n)
    ensures ok <==> NeverCloses(ft)
    ensures ok ==> state in st.states && n <= state && st.level[state] == Depth(ft)
  {
    state := r0;
    var lw: seq<Option<nat>>, fs: seq<Fail> := [None], [NoFail];
    assert Zeros(1) == [0];
    assert ft[..0] == [];
    for i := 0 to |ft|
      invariant st.NetInv(n, state, lw, fs, Zeros(|fs|)) && NoLists(fs) && st.root == old(st.root)
      invariant Grows(old(st.states), old(st.level), st.states, st.level, n)
      invariant |lw| == 1 + Depth(ft[..i]) && forall k :: 0 <= k <= i ==> Depth(ft[..k]) >= 0
    {
      ghost var s0, l0 := st.states, st.level;
      assert ft[..i + 1][..i] == ft[..i];
      ok, state, lw, fs := LNetStep(st, n, state, ft[i], lw, fs);
      GrowsTrans(old(st.states), old(st.level), s0, l0, st.states, st.level, n);
      if !ok {
        assert Depth(ft[..i + 1]) < 0;
        return;
      }
    }
    assert ft[..|ft|] == ft;
    ok := true;
  }

  /** A last transition of `_generate_net` that may lead to a list: not
      on a wildcard (the source asserts that), a symbol class, `Wildcard`
      or `EPSILON`. */
  predicate ListLabel(l: Label) {
    !l.Wild? && !l.SymbolType? && l != AnyWild && l != Epsilon
  }

  /** The NFA of `_generate_net`, the states from id `n` on, after its last
      state `state` got a transition on `last` to the new list `tm`: `tm`
      is its only list and the only state with a payload, and the one
      transition into it is on `last`. */
  lemma LFinalList(before: map<nat, State>, after: map<nat, State>, terms: set<nat>, state: nat, last: Label, tm: nat, fl: nat, n: nat)
    requires Closed(before) && FreshEmpty(before, n) && state in before && n <= state && tm !in before && n <= tm
    requires ListLabel(last) && forall x :: x in terms ==> x < n
    requires after == before[tm := State([], [fl])][state := State(Put(before[state].edges, last, tm), before[state].payload)]
    ensures ListShape(From(after, n), terms + {tm}, tm) && AllPayloads(From(after, n)) == {fl}
  {
    var nfa := From(after, n);
    PutFacts(before[state].edges, last, tm);
    forall x, l, t | x in nfa && (l, t) in nfa[x].edges && t == tm
      ensures x == state
    {
    }
    LFinalPayloads(before, after, state, last, tm, fl, n);
  }

  /** The payloads of the NFA of `LFinalList`: `[fl]` at `tm`, none
      elsewhere. */
  lemma LFinalPayloads(before: map<nat, State>, after: map<nat, State>, state: nat, last: Label, tm: nat, fl: nat, n: nat)
    requires FreshEmpty(before, n) && state in before && n <= state && tm !in before && n <= tm
    requires after == before[tm := State([], [fl])][state := State(Put(before[state].edges, last, tm), before[state].payload)]
    ensures AllPayloads(From(after, n)) == {fl}
  {
    var nfa := From(after, n);
    forall k | k in nfa
      ensures nfa[k].payload == if k == tm then [fl] else []
    {
      if k != tm {
        assert nfa[k].payload == before[k].payload;
      }
    }
    assert tm in nfa && fl in nfa[tm].payload;
  }

  /** The end of the legacy `_generate_net`: the last state gets a
      transition on the last atom to a new list `[final_label]`, and the
      result is the subset construction of the NFA, the states from id `n`
      on. */
  method LFinishNet<T>(st: DiscriminationNet<T>, terms: set<nat>, n: nat, r0: nat, state: nat, last: Label, finalLabel: nat)
    returns (r: nat, tm: nat, ghost nfa: map<nat, State>, ghost dfa: map<set<nat>, nat>)
    requires st.Wf() && ListsShape(st.states, terms) && ClosedFrom(st.states, n) && FreshEmpty(st.states, n)
    requires r0 in st.states && n <= r0 && st.level[r0] == 0 && state in st.states && n <= state
    requires ListLabel(last) && forall x :: x in terms ==> x < n
    modifies st
    ensures st.Wf() && st.root == old(st.root) && ListsShape(st.states, terms + {tm})
    ensures Frozen(old(st.states), st.states, n) && Extends(old(st.level), st.level)
    ensures tm == old(st.nextId) && st.states[tm] == State([], [finalLabel])
    ensures AllPayloads(st.states) <= AllPayloads(old(st.states)) + {finalLabel}
    ensures r0 in nfa && state in nfa && tm in nfa && forall k :: k in nfa ==> n <= k && k in st.states
    ensures Closed(nfa) && Graded(nfa, st.level) && ListShape(nfa, terms + {tm}, tm) && AllPayloads(nfa) == {finalLabel}
    ensures Get(nfa[state].edges, last) == Some(tm)
    ensures EpsClosure(nfa, {r0}) in dfa && r == dfa[EpsClosure(nfa, {r0})]
    ensures r in st.states && r !in terms + {tm} && st.level[r] == 0
    ensures forall t :: t in dfa ==> LComplete(nfa, tm, st.states, dfa, t) && tm !in t && st.states[dfa[t]].payload == []
  {
    tm := st.NewState([finalLabel], st.level[state] + Delta(last));
    ghost var s1 := st.states;
    FrozenFresh(old(st.states), tm, State([], [finalLabel]), n);
    st.SetEdge(state, last, tm);
    FrozenFresh(s1, state, st.states[state], n);
    FrozenTrans(old(st.states), s1, st.states, n);
    ClosedFromNew(old(st.states), tm, [finalLabel], n);
    ClosedFromPut(s1, state, last, tm, n);
    PutFacts(s1[state].edges, last, tm);
    LFinalList(old(st.states), st.states, terms, state, last, tm, finalLabel, n);
    ListsKept2(old(st.states), st.states, terms, n);
    ghost var net := From(st.states, n);
    nfa := net;
    FromClosed(st.states, n);
    GradedSub(nfa, st.states, st.level);
    assert state in nfa && nfa[state] == st.states[state];
    ghost var l2 := st.level;
    r, dfa := LConvertNfaToDfa(st, terms + {tm}, r0, From(st.states, n), tm);
    GradedMore(nfa, l2, st.level);
  }

  /** The legacy `_generate_net`: the loop over all atoms but the last
      builds the NFA as in matchpy, with no operand counts and single fail
      states; the last atom, which must not be a wildcard, leads to a new
      list `[final_label]`; the result is the subset construction of the
      NFA, the states created by this call. The NFA is closed and graded,
      its root is on level 0, the new list is its only list and holds its
      only payload. */
  method LGenerateNet<T>(st: DiscriminationNet<T>, terms: set<nat>, ft: seq<Label>, finalLabel: nat)
    returns (res: LNetResult, ghost nfa: map<nat, State>, ghost dfa: map<set<nat>, nat>)
    requires st.Wf() && ListsShape(st.states, terms) && ft != []
    requires var last := ft[|ft| - 1]; !last.SymbolType? && last != AnyWild && last != Epsilon
    modifies st
    ensures st.Wf() && st.root == old(st.root)
    ensures Extends(old(st.states), st.states) && Extends(old(st.level), st.level)
    ensures AllPayloads(st.states) <= AllPayloads(old(st.states)) + {finalLabel}
    ensures res.LNetIndexError? <==> !NeverCloses(ft[..|ft| - 1])
    ensures res.LNetAssertionError? <==> NeverCloses(ft[..|ft| - 1]) && ft[|ft| - 1].Wild?
    ensures !res.LNet? ==> ListsShape(st.states, terms)
    ensures res.LNet? ==> res.list !in old(st.states) && res.list in st.states && st.states[res.list] == State([], [finalLabel]) &&
                          ListsShape(st.states, terms + {res.list})
    ensures res.LNet? ==> old(st.nextId) in nfa && forall k :: k in nfa ==> old(st.nextId) <= k && k in st.states
    ensures res.LNet? ==> Closed(nfa) && Graded(nfa, st.level) && st.level[old(st.nextId)] == 0 &&
                          ListShape(nfa, terms + {res.list}, res.list) && AllPayloads(nfa) == {finalLabel}
    ensures res.LNet? ==> EpsClosure(nfa, {old(st.nextId)}) in dfa && res.id == dfa[EpsClosure(nfa, {old(st.nextId)})] &&
                          res.id in st.states && res.id !in terms + {res.list} && st.level[res.id] == 0
    ensures res.LNet? ==> forall t :: t in dfa ==> LComplete(nfa, res.list, st.states, dfa, t) && res.list !in t &&
                                                   st.states[dfa[t]].payload == []
  {
    var n0 := st.nextId;
    ClosedFromBelow(st.states, n0);
    var r0 := st.AddState(n0, 0);
    ghost var s1, l1 := st.states, st.level;
    var ok, state := LNetLoop(st, n0, r0, ft[..|ft| - 1]);
    GrowsTrans(old(st.states), old(st.level), s1, l1, st.states, st.level, n0);
    PayloadsGrow(old(st.states), old(st.level), st.states, st.level, n0);
    FrozenAll(old(st.states), st.states, n0);
    ListsKept(old(st.states), st.states, terms);
    nfa, dfa := map[], map[];
    if !ok {
      return LNetIndexError, nfa, dfa;
    }
    var last := ft[|ft| - 1];
    if last.Wild? {
      return LNetAssertionError, nfa, dfa;
    }
    ghost var s3 := st.states;
    var r, tm;
    r, tm, nfa, dfa := LFinishNet(st, terms, n0, r0, state, last, finalLabel);
    FrozenTrans(old(st.states), s3, st.states, n0);
    FrozenAll(old(st.states), st.states, n0);
    res := LNet(r, tm);
  }

  /** What the legacy `add` ends with: done, the `TypeError` of the
      flatterm of an unsupported expression, or the `AttributeError` of
      `_product_net`. */
  datatype AddOutcome = Extended | AddTypeError | ProductAttributeError

  class LegacyNet<T> {
    /** The states, the id counter and the root `_root`. */
    var store: DiscriminationNet<T>
    /** The states that stand for terminal lists. */
    var terminals: set<nat>
    /** The final labels the lists hold, by index. */
    var finals: seq<Final<T>>

    ghost predicate Wf()
      reads this, store
    {
      store.Wf() && ListsShape(store.states, terminals)
    }

    /** The root is a state rather than a list, on level 0, and every list
        entry is the index of a final label. */
    ghost predicate Valid()
      reads this, store
    {
      Wf() && store.root in store.states && store.root !in terminals && store.level[store.root] == 0 &&
      forall x :: x in AllPayloads(store.states) ==> x < |finals|
    }

    /** `DiscriminationNet()`: an empty root state. */
    constructor ()
      ensures Valid() && fresh(store) && terminals == {} && finals == []
      ensures store.states == map[store.root := State([], [])]
    {
      store := new DiscriminationNet<T>();
      terminals := {};
      finals := [];
    }

    /** A new list holding `payload`. */
    method NewList(payload: seq<nat>, ghost lv: int) returns (id: nat)
      requires Wf()
      modifies this, store
      ensures Wf() && store == old(store) && store.root == old(store.root) && finals == old(finals)
      ensures id == old(store.nextId) && store.nextId == id + 1 && id !in old(store.states)
      ensures store.states == old(store.states)[id := State([], payload)] && terminals == old(terminals) + {id}
      ensures store.level == old(store.level)[id := lv] && Extends(old(store.level), store.level)
      ensures AllPayloads(store.states) <= AllPayloads(old(store.states)) + Elems(payload)
    {
      id := store.NewState(payload, lv);
      terminals := terminals + {id};
    }

    /** `state[label] = target` on a state that is not a list. */
    method Link(s: nat, l: Label, t: nat)
      requires Wf() && s in store.states && s !in terminals && t in store.states
      requires store.level[t] == store.level[s] + Delta(l)
      modifies store
      ensures Wf() && store.root == old(store.root) && store.nextId == old(store.nextId) && store.level == old(store.level)
      ensures store.states == old(store.states)[s := State(Put(old(store.states)[s].edges, l, t), old(store.states)[s].payload)]
      ensures AllPayloads(store.states) <= AllPayloads(old(store.states))
    {
      store.SetEdge(s, l, t);
    }

    /** `_generate_syntactic_net`: a chain of new states reading the
        `LegacyChainLabels` of the flatterm, whose last transition goes to
        a new list `[finalLabel]`. */
    method GenerateSyntacticNet(flatterm: seq<Label>, finalLabel: nat) returns (r: nat)
      requires Wf() && flatterm != []
      modifies this, store
      ensures Wf() && store == old(store) && store.root == old(store.root) && finals == old(finals)
      ensures r == old(store.nextId) && store.nextId == r + |LegacyChainLabels(flatterm)| + 1
      ensures Extends(old(store.states), store.states)
      ensures forall k :: k in store.states <==> k in old(store.states) || r <= k < store.nextId
      ensures IsChain(store.states, r, LegacyChainLabels(flatterm), [finalLabel])
      ensures terminals == old(terminals) + {r + |LegacyChainLabels(flatterm)|}
      ensures store.level[r] == 0 && Extends(old(store.level), store.level)
      ensures AllPayloads(store.states) <= AllPayloads(old(store.states)) + {finalLabel}
    {
      var st := store;
      LegacyLabels(flatterm);
      r := st.GenerateSyntacticNet(RaiseLast(flatterm), finalLabel);
      ListsKept(old(store.states), st.states, terminals);
      var t: nat := r + |LegacyChainLabels(flatterm)|;
      assert st.states[t] == State([], [finalLabel]);
      ListsJoin(st.states, terminals, t);
      terminals := terminals + {t};
    }

    /** The end of the legacy `add` with a root that has transitions: the
        root becomes the product of the old root with the net from `net`,
        unless `labels` raises `AttributeError` on an item the product
        meets. */
    method ProductRoot(net: nat) returns (ok: bool, ghost pm: map<(nat, nat, int), nat>, ghost its: map<(nat, nat, int), Item>)
      requires Wf() && net in store.states && net !in terminals && store.level[net] == 0
      requires store.root in store.states && store.root !in terminals && store.level[store.root] == 0
      modifies this, store
      ensures Wf() && store == old(store) && finals == old(finals) && old(terminals) <= terminals
      ensures forall k :: k in terminals && k !in old(terminals) ==> k !in old(store.states)
      ensures store.root in store.states && store.root !in terminals && store.level[store.root] == 0
      ensures Extends(old(store.states), store.states) && Extends(old(store.level), store.level)
      ensures AllPayloads(store.states) <= AllPayloads(old(store.states))
      ensures its.Keys == pm.Keys && forall k :: k in pm ==> LKey(old(terminals), its[k]) == k
      ensures ok <==> forall k :: k in pm ==> !Crash(old(terminals), its[k])
      ensures ok ==> store.root == old(store.nextId) && (old(store.root), net, 0) in pm && store.root == pm[(old(store.root), net, 0)]
      ensures ok ==> forall k :: k in pm ==> LPComplete(old(store.states), old(terminals), terminals, store.states, pm, its, k)
      ensures !ok ==> store.root == old(store.root)
    {
      var st := store;
      var r, terms;
      ok, r, terms, pm, its := LProductNet(st, terminals, st.root, net);
      if ok {
        terminals := terms;
        st.SetRoot(r);
      } else {
        ListsFewer(st.states, terminals, terms);
      }
    }

    /** The end of the legacy `add`: the root becomes the product of the old
        root with the net from `net` as `ProductRoot` says, or that net
        itself while the old root has no transition. */
    method CombineRoot(net: nat) returns (ok: bool, ghost pm: map<(nat, nat, int), nat>, ghost its: map<(nat, nat, int), Item>)
      requires Wf() && net in store.states && net !in terminals && store.level[net] == 0
      requires store.root in store.states && store.root !in terminals && store.level[store.root] == 0
      modifies this, store
      ensures Wf() && store == old(store) && finals == old(finals) && old(terminals) <= terminals
      ensures forall k :: k in terminals && k !in old(terminals) ==> k !in old(store.states)
      ensures store.root in store.states && store.root !in terminals && store.level[store.root] == 0
      ensures Extends(old(store.states), store.states) && Extends(old(store.level), store.level)
      ensures AllPayloads(store.states) <= AllPayloads(old(store.states))
      ensures !old(store.Truthy(Some(store.root))) ==> ok && store.root == net && store.states == old(store.states)
      ensures old(store.Truthy(Some(store.root))) && ok ==> net < store.root
      ensures !ok ==> old(store.Truthy(Some(store.root))) && store.root == old(store.root)
    {
      pm, its := map[], map[];
      ok := true;
      if store.Truthy(Some(store.root)) {
        ok, pm, its := ProductRoot(net);
      } else {
        store.SetRoot(net);
      }
    }

    /** The net of one flatterm in the legacy `add`: a chain from
        `_generate_syntactic_net` when the flatterm is syntactic or a single
        atom, otherwise the automaton of `_generate_net`; for the flatterm
        of an expression the latter raises nothing. */
    method PatternNet(ghost pattern: Expression, ft: seq<Label>, index: nat) returns (net: nat)
      requires Wf() && Supported(pattern) && ft == FlatTerm(pattern)
      modifies this, store
      ensures Wf() && store == old(store) && store.root == old(store.root) && finals == old(finals)
      ensures forall k :: k in terminals && k !in old(terminals) ==> k !in old(store.states)
      ensures Extends(old(store.states), store.states) && Extends(old(store.level), store.level) && old(terminals) <= terminals
      ensures AllPayloads(store.states) <= AllPayloads(old(store.states)) + {index}
      ensures net in store.states && net !in terminals && store.level[net] == 0
      ensures ft != [] && (IsSyntactic(ft) || |ft| == 1) ==>
                net == old(store.nextId) && ChainTo(store.states, terminals, net, ft, index)
    {
      FlatTermEnds(pattern);
      if IsSyntactic(ft) || |ft| == 1 {
        net := ChainNet(ft, index);
      } else {
        FlatTermOpen(pattern);
        net := AutomatonNet(ft, index);
      }
    }

    /** The chain of `_generate_syntactic_net`, whose last list is a new
        terminal list. */
    method ChainNet(ft: seq<Label>, index: nat) returns (net: nat)
      requires Wf() && ft != []
      modifies this, store
      ensures Wf() && store == old(store) && store.root == old(store.root) && finals == old(finals)
      ensures forall k :: k in terminals && k !in old(terminals) ==> k !in old(store.states)
      ensures Extends(old(store.states), store.states) && Extends(old(store.level), store.level) && old(terminals) <= terminals
      ensures AllPayloads(store.states) <= AllPayloads(old(store.states)) + {index}
      ensures net in store.states && net !in terminals && store.level[net] == 0
      ensures net == old(store.nextId) && IsChain(store.states, net, LegacyChainLabels(ft), [index])
      ensures net + |LegacyChainLabels(ft)| in terminals
    {
      net := GenerateSyntacticNet(ft, index);
    }

    /** The automaton of `_generate_net`, whose final list is a new
        terminal list. */
    method AutomatonNet(ft: seq<Label>, index: nat) returns (net: nat)
      requires Wf() && ft != [] && ft[|ft| - 1] == End && NeverCloses(ft[..|ft| - 1])
      modifies this, store
      ensures Wf() && store == old(store) && store.root == old(store.root) && finals == old(finals)
      ensures forall k :: k in terminals && k !in old(terminals) ==> k !in old(store.states)
      ensures Extends(old(store.states), store.states) && Extends(old(store.level), store.level) && old(terminals) <= terminals
      ensures AllPayloads(store.states) <= AllPayloads(old(store.states)) + {index}
      ensures net in store.states && net !in terminals && store.level[net] == 0
    {
      var st := store;
      var g, nfa, dfa := LGenerateNet(st, terminals, ft, index);
      net := g.id;
      terminals := terminals + {g.list};
    }

    /** The legacy `add`: the flatterm of the pattern (a `TypeError` for an
        expression `_flatterm_iter` does not know), its `PatternNet` and
        `CombineRoot`. The final label, the pattern itself when none is
        given, is stored under a new index, which is what the lists of the
        new net hold. */
    method Add(pattern: Expression, finalLabel: Option<T>) returns (res: AddOutcome, ghost net: nat)
      requires Valid()
      modifies this, store
      ensures Valid() && store == old(store)
      ensures finals == old(finals) + [if finalLabel.Some? then Given(finalLabel.value) else Pattern(pattern)]
      ensures Extends(old(store.states), store.states) && Extends(old(store.level), store.level) && old(terminals) <= terminals
      ensures AllPayloads(store.states) <= AllPayloads(old(store.states)) + {|old(finals)|}
      ensures res.AddTypeError? <==> !Supported(pattern)
      ensures res.ProductAttributeError? ==> old(store.Truthy(Some(store.root)))
      ensures !res.Extended? ==> store.root == old(store.root)
      ensures res.Extended? ==> Supported(pattern) && FlatTerm(pattern) != [] && net in store.states && net !in terminals &&
                                store.level[net] == 0
      ensures res.Extended? && (IsSyntactic(FlatTerm(pattern)) || |FlatTerm(pattern)| == 1) ==>
                net == old(store.nextId) && ChainTo(store.states, terminals, net, FlatTerm(pattern), |old(finals)|)
      ensures res.Extended? && !old(store.Truthy(Some(store.root))) ==> store.root == net
      ensures res.Extended? && old(store.Truthy(Some(store.root))) ==> net < store.root
    {
      var index := |finals|;
      finals := finals + [if finalLabel.Some? then Given(finalLabel.value) else Pattern(pattern)];
      net := 0;
      var flat := LegacyFlatIter(pattern);
      if flat.None? {
        return AddTypeError, net;
      }
      var ft := NewFlatTerm(pattern);
      res, net := AddFlat(pattern, ft, index);
    }

    /** `add` once the flatterm `ft` of the pattern is known and its final
        label is stored under `index`. */
    method AddFlat(ghost pattern: Expression, ft: seq<Label>, index: nat) returns (res: AddOutcome, net: nat)
      requires Wf() && Supported(pattern) && ft == FlatTerm(pattern) && index < |finals|
      requires store.root in store.states && store.root !in terminals && store.level[store.root] == 0
      requires forall x :: x in AllPayloads(store.states) ==> x < |finals|
      modifies this, store
      ensures Valid() && store == old(store) && finals == old(finals) && !res.AddTypeError?
      ensures Extends(old(store.states), store.states) && Extends(old(store.level), store.level) && old(terminals) <= terminals
      ensures AllPayloads(store.states) <= AllPayloads(old(store.states)) + {index}
      ensures res.ProductAttributeError? ==> old(store.Truthy(Some(store.root)))
      ensures !res.Extended? ==> store.root == old(store.root)
      ensures res.Extended? ==> ft != [] && net in store.states && net !in terminals && store.level[net] == 0
      ensures res.Extended? && (IsSyntactic(ft) || |ft| == 1) ==>
                net == old(store.nextId) && ChainTo(store.states, terminals, net, ft, index)
      ensures res.Extended? && !old(store.Truthy(Some(store.root))) ==> store.root == net
      ensures res.Extended? && old(store.Truthy(Some(store.root))) ==> net < store.root
    {
      FlatTermEnds(pattern);
      ghost var s0, l0 := store.states, store.level;
      net := PatternNet(pattern, ft, index);
      ghost var s1, l1 := store.states, store.level;
      var ok, pm, its := CombineRoot(net);
      res := if ok then Extended else ProductAttributeError;
      if ft != [] && (IsSyntactic(ft) || |ft| == 1) {
        ChainKept(s1, store.states, net, LegacyChainLabels(ft), [index]);
      }
      ExtendsTrans(s0, s1, store.states);
      ExtendsTrans(l0, l1, store.level);
      BelowAll(AllPayloads(store.states), AllPayloads(s0), index, |finals|);
    }

    /** `match` on a flatterm subject: the walk `LRun` from the root. */
    method Match(subject: seq<Label>) returns (res: LegacyMatchResult)
      requires Valid()
      ensures res == LRun(store.states, terminals, subject, 0, store.root, 0)
      ensures res.Found? ==> forall x :: x in res.indices ==> x < |finals|
    {
      var states := store.states;
      LRunIndices(states, terminals, subject, 0, store.root, 0);
      ghost var run := LRun(states, terminals, subject, 0, store.root, 0);
      assert run.Found? ==> forall x :: x in run.indices ==> x in Elems(run.indices) && x < |finals|;
      var state := store.root;
      var depth := 0;
      for i := 0 to |subject|
        invariant state in states
        invariant LRun(states, terminals, subject, i, state, depth) == run
      {
        var term := subject[i];
        if depth > 0 {
          if term.Head? {
            depth := depth + 1;
          } else if term == End {
            depth := depth - 1;
          }
        } else {
          var es := states[state].edges;
          var next := Get(es, term);
          if next.Some? {
            state := next.value;
          } else if term.Head? {
            depth := 1;
            var w := Get(es, AnyWild);
            if w.None? {
              assert MatchMove(es, term) == Stuck;
              return Found([]);
            }
            state := w.value;
          } else if term == End {
            assert MatchMove(es, term) == EndFail;
            return Found([]);
          } else if term.Sym? {
            var key := SymbolWildcardKey(es, term);
            var w := Get(es, if key.Some? then key.value else AnyWild);
            if w.None? {
              assert MatchMove(es, term) == Stuck;
              return Found([]);
            }
            state := w.value;
          } else {
            return MatchTypeError;
          }
          if state in terminals {
            return Found(states[state].payload);
          }
        }
      }
      res := MatchAssertionError;
    }
  }

  /** A syntactic pattern of symbols and operations added to a new legacy
      net matches its own flatterm: `match` reaches the list holding the
      index of its final label. */
  method LegacyMatchOwnPattern<T>(pattern: Expression, finalLabel: Option<T>) returns (added: AddOutcome, res: LegacyMatchResult)
    requires Supported(pattern) && Terminal(FlatTerm(pattern)) && IsSyntactic(FlatTerm(pattern))
    ensures added == Extended && res == Found([0])
  {
    var dn := new LegacyNet<T>();
    ghost var net;
    added, net := dn.Add(pattern, finalLabel);
    var ft := NewFlatTerm(pattern);
    assert dn.store.root == net && ChainTo(dn.store.states, dn.terminals, net, ft, 0);
    ChainToRun(dn.store.states, dn.terminals, net, ft, 0);
    res := dn.Match(ft);
  }
}
