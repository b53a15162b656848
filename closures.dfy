/** The static helpers of `DiscriminationNet` in
    matchpy/matching/syntactic.py that read a dictionary of NFA states:
    `_epsilon_closure` and `_target_set`. Each loop is a method proved equal
    to a function, and the function's meaning is proved as lemmas: the
    closure is the least superset closed under epsilon transitions. */
module Closures {
  import opened Terms
  import opened Sequences
  import opened Transitions

  lemma CardLess<T>(a: set<T>, b: set<T>)
    requires a < b
    ensures |a| < |b|
  {
    var d := b - a;
    assert b == d + a && d * a == {};
    assert d != {} by {
      assert forall x :: x in b && x !in a ==> x in d;
    }
  }

  /** `states[s][EPSILON]`, where either lookup may raise `KeyError`. */
  function EpsTarget(states: map<nat, State>, x: nat): Option<nat> {
    if x in states then Get(states[x].edges, Epsilon) else None
  }

  /** Every epsilon transition from a member of `c` stays in `c`. */
  ghost predicate EpsClosed(states: map<nat, State>, c: set<nat>) {
    forall x :: x in c && EpsTarget(states, x).Some? ==> EpsTarget(states, x).value in c
  }

  /** Every state id some transition leads to. */
  function AllTargets(states: map<nat, State>): set<nat> {
    set x, i | x in states && 0 <= i < |states[x].edges| :: states[x].edges[i].1
  }

  lemma EpsTargetIn(states: map<nat, State>, x: nat)
    requires EpsTarget(states, x).Some?
    ensures EpsTarget(states, x).value in AllTargets(states)
  {
    var es := states[x].edges;
    var t := EpsTarget(states, x).value;
    assert (Epsilon, t) in es;
    var i :| 0 <= i < |es| && es[i] == (Epsilon, t);
    assert states[x].edges[i].1 == t;
  }

  /** `to_add` of one round of `_epsilon_closure`. */
  function EpsStep(states: map<nat, State>, out: set<nat>): (r: set<nat>)
    ensures r <= AllTargets(states) && r * out == {}
  {
    var r := set x | x in out && EpsTarget(states, x).Some? && EpsTarget(states, x).value !in out :: EpsTarget(states, x).value;
    assert forall x :: x in out && EpsTarget(states, x).Some? ==> EpsTarget(states, x).value in AllTargets(states) by {
      forall x | x in out && EpsTarget(states, x).Some? {
        EpsTargetIn(states, x);
      }
    }
    r
  }

  /** The fixpoint `_epsilon_closure` computes: rounds of `EpsStep` until
      nothing is added. */
  function EpsClosure(states: map<nat, State>, s: set<nat>): set<nat>
    decreases |AllTargets(states) - s|
  {
    var add := EpsStep(states, s);
    if add == {} then s
    else
      var x :| x in add;
      assert x in AllTargets(states) - s;
      CardLess(AllTargets(states) - (s + add), AllTargets(states) - s);
      EpsClosure(states, s + add)
  }

  /** The closure contains its input, is closed under epsilon transitions,
      and lies inside every closed superset of its input. */
  lemma {:induction false} EpsClosureLeast(states: map<nat, State>, s: set<nat>)
    ensures s <= EpsClosure(states, s)
    ensures EpsClosed(states, EpsClosure(states, s))
    ensures forall c :: s <= c && EpsClosed(states, c) ==> EpsClosure(states, s) <= c
    decreases |AllTargets(states) - s|
  {
    var add := EpsStep(states, s);
    if add == {} {
      assert forall x :: x in s && EpsTarget(states, x).Some? && EpsTarget(states, x).value !in s ==>
        EpsTarget(states, x).value in add;
    } else {
      var x :| x in add;
      assert x in AllTargets(states) - s;
      CardLess(AllTargets(states) - (s + add), AllTargets(states) - s);
      EpsClosureLeast(states, s + add);
      forall c | s <= c && EpsClosed(states, c)
        ensures s + add <= c
      {
      }
    }
  }

  /** `_epsilon_closure`: grows the set by the epsilon targets of its members
      until a round adds nothing. */
  method EpsilonClosure(states: map<nat, State>, s: set<nat>) returns (out: set<nat>)
    ensures out == EpsClosure(states, s)
  {
    out := s;
    while true
      invariant EpsClosure(states, out) == EpsClosure(states, s)
      decreases |AllTargets(states) - out|
    {
      var toAdd := set x | x in out && EpsTarget(states, x).Some? && EpsTarget(states, x).value !in out :: EpsTarget(states, x).value;
      assert toAdd == EpsStep(states, out);
      if toAdd != {} {
        var x :| x in toAdd;
        assert x in AllTargets(states) - out;
        CardLess(AllTargets(states) - (out + toAdd), AllTargets(states) - out);
        out := out + toAdd;
      } else {
        break;
      }
    }
  }

  /** What one state of the set contributes to `_target_set` on `lab`: its
      own transition on the label, for a symbol the transition on its first
      matching symbol class, and its `Wildcard` transition unless the label is
      an operation head or `OPERATION_END`. */
  function Moves(states: map<nat, State>, x: nat, lab: Label): set<nat>
    requires x in states
  {
    DirectMove(states[x].edges, lab) + SymbolMove(states[x].edges, lab) + WildMove(states[x].edges, lab)
  }

  function DirectMove(es: Edges, lab: Label): set<nat> {
    if Get(es, lab).Some? then {Get(es, lab).value} else {}
  }

  function SymbolMove(es: Edges, lab: Label): set<nat> {
    if lab.Sym? && SymbolWildcardKey(es, lab).Some? then {Get(es, SymbolWildcardKey(es, lab).value).value} else {}
  }

  function WildMove(es: Edges, lab: Label): set<nat> {
    if AnyWild in Keys(es) && !lab.Head? && !lab.End? then {Get(es, AnyWild).value} else {}
  }

  function MoveSet(states: map<nat, State>, s: set<nat>, lab: Label): set<nat>
    requires s <= states.Keys
  {
    set x, t | x in s && t in Moves(states, x, lab) :: t
  }

  lemma MoveSetAdd(states: map<nat, State>, a: set<nat>, x: nat, lab: Label)
    requires a + {x} <= states.Keys
    ensures MoveSet(states, a + {x}, lab) == MoveSet(states, a, lab) + Moves(states, x, lab)
  {
  }

  /** The set `_target_set` returns. */
  function TargetSpec(states: map<nat, State>, s: set<nat>, lab: Label): set<nat>
    requires s <= states.Keys
  {
    EpsClosure(states, MoveSet(states, s, lab))
  }

  /** `_target_set`: the moves of every member of the set on `lab`, closed
      under epsilon transitions. */
  method TargetSet(states: map<nat, State>, s: set<nat>, lab: Label) returns (out: set<nat>)
    requires s <= states.Keys
    ensures out == TargetSpec(states, s, lab)
  {
    var output: set<nat> := {};
    var rest := s;
    while rest != {}
      invariant rest <= s
      invariant output == MoveSet(states, s - rest, lab)
      decreases |rest|
    {
      var x :| x in rest;
      MoveSetAdd(states, s - rest, x, lab);
      output := output + Moves(states, x, lab);
      assert s - (rest - {x}) == (s - rest) + {x};
      rest := rest - {x};
    }
    assert s - rest == s;
    out := EpsilonClosure(states, output);
  }

  /** On an operation head or `OPERATION_END` a target is reached by a
      transition on that very label: `Wildcard` transitions are not
      followed. */
  lemma StructuralMoves(states: map<nat, State>, s: set<nat>, lab: Label, t: nat)
    requires s <= states.Keys && (lab.Head? || lab.End?)
    requires t in MoveSet(states, s, lab)
    ensures exists x :: x in s && Get(states[x].edges, lab) == Some(t)
  {
    var x :| x in s && t in Moves(states, x, lab);
  }

  /** All members of the set are states on nesting level `h`. */
  ghost predicate OnLevel(states: map<nat, State>, level: map<nat, int>, s: set<nat>, h: int) {
    forall x :: x in s ==> x in states && x in level && level[x] == h
  }

  /** In a closed graded net the closure of a set on one level stays on that
      level, since epsilon transitions keep the nesting depth. */
  lemma ClosureLevel(states: map<nat, State>, level: map<nat, int>, s: set<nat>, h: int)
    requires Closed(states) && Graded(states, level) && OnLevel(states, level, s, h)
    ensures OnLevel(states, level, EpsClosure(states, s), h)
  {
    var e := EpsClosure(states, s);
    EpsClosureLeast(states, s);
    var c := set x | x in e && x in states && level[x] == h;
    forall x | x in c && EpsTarget(states, x).Some?
      ensures EpsTarget(states, x).value in c
    {
      var t := EpsTarget(states, x).value;
      assert (Epsilon, t) in states[x].edges;
      assert t in e && t in states;
      assert level[t] == level[x] + Delta(Epsilon) == h;
    }
    assert s <= c;
  }

  /** Each move on `lab` changes the nesting depth by `Delta(lab)`: the
      symbol-class and `Wildcard` transitions are taken only on labels that
      keep the depth. */
  lemma MovesLevel(states: map<nat, State>, level: map<nat, int>, x: nat, lab: Label, t: nat)
    requires Closed(states) && Graded(states, level) && x in states
    requires t in Moves(states, x, lab)
    ensures t in states && level[t] == level[x] + Delta(lab)
  {
    var es := states[x].edges;
    if t in DirectMove(es, lab) {
      assert (lab, t) in es;
    } else if t in SymbolMove(es, lab) {
      var k := SymbolWildcardKey(es, lab).value;
      assert (k, t) in es;
      assert Delta(k) == 0 == Delta(lab);
    } else {
      assert t in WildMove(es, lab);
      assert (AnyWild, t) in es;
      assert Delta(AnyWild) == 0 == Delta(lab);
    }
  }

  /** The target set of a set on level `h` lies on level `h + Delta(lab)`. */
  lemma TargetLevel(states: map<nat, State>, level: map<nat, int>, s: set<nat>, lab: Label, h: int)
    requires Closed(states) && Graded(states, level) && OnLevel(states, level, s, h)
    ensures OnLevel(states, level, TargetSpec(states, s, lab), h + Delta(lab))
  {
    var m := MoveSet(states, s, lab);
    forall t | t in m
      ensures t in states && t in level && level[t] == h + Delta(lab)
    {
      var x :| x in s && t in Moves(states, x, lab);
      MovesLevel(states, level, x, lab, t);
    }
    ClosureLevel(states, level, m, h + Delta(lab));
  }
}
