/** Flatterms (`FlatTerm` in matchpy/matching/syntactic.py and
    patternmatcher/syntactic.py): an expression in prefix order, with an
    operation written as its class, its operands and `OPERATION_END`, the
    variables left out, symbol wildcards replaced by their symbol class and
    runs of wildcards merged into one. */
module FlatTerms {
  import opened Terms
  import opened Sequences

  // ---------------------------------------------------------------------
  // `_flatterm_iter`

  /** Every node of `e` is of a kind `_flatterm_iter` knows. */
  predicate Supported(e: Expression) {
    match e
    case Unsupported(_) => false
    case Variable(_, x) => Supported(x)
    case Operation(_, ops) => forall i :: 0 <= i < |ops| ==> Supported(ops[i])
    case _ => true
  }

  /** `_flatterm_iter`: the atoms of `e` in prefix order with an end marker
      after the operands of every operation. */
  function FlatIter(e: Expression): seq<Label>
    requires Supported(e)
    decreases e, 1
  {
    match e
    case Variable(_, x) => FlatIter(x)
    case Operation(h, _) => [Head(h)] + Concat(OperandFlats(e)) + [End]
    case SymbolWildcard(t) => [SymbolType(t)]
    case Symbol(n, c) => [Sym(n, c)]
    case Wildcard(m, f) => [Wild(m, f)]
  }

  /** The flattenings of the operands of an operation, in order. */
  function OperandFlats(e: Expression): (r: seq<seq<Label>>)
    requires e.Operation? && Supported(e)
    decreases e, 0
  {
    seq(|e.operands|, i requires 0 <= i < |e.operands| => FlatIter(e.operands[i]))
  }

  /** The legacy `_flatterm_iter` of patternmatcher/syntactic.py, which
      raises `TypeError` (here `None`) on any other kind of expression. */
  function LegacyFlatIter(e: Expression): (r: Option<seq<Label>>)
    ensures r.Some? <==> Supported(e)
    ensures r.Some? ==> r.value == FlatIter(e)
    decreases e, 1
  {
    match e
    case Unsupported(_) => None
    case Variable(_, x) => LegacyFlatIter(x)
    case Operation(h, ops) =>
      var parts := LegacyOperandFlats(e);
      if forall i :: 0 <= i < |parts| ==> parts[i].Some? then
        var flats := seq(|parts|, i requires 0 <= i < |parts| => parts[i].value);
        assert flats == OperandFlats(e);
        Some([Head(h)] + Concat(flats) + [End])
      else
        None
    case SymbolWildcard(t) => Some([SymbolType(t)])
    case Symbol(n, c) => Some([Sym(n, c)])
    case Wildcard(m, f) => Some([Wild(m, f)])
  }

  function LegacyOperandFlats(e: Expression): (r: seq<Option<seq<Label>>>)
    requires e.Operation?
    ensures |r| == |e.operands|
    ensures forall i :: 0 <= i < |r| ==> (r[i].Some? <==> Supported(e.operands[i]))
    ensures forall i :: 0 <= i < |r| && r[i].Some? ==> r[i].value == FlatIter(e.operands[i])
    decreases e, 0
  {
    seq(|e.operands|, i requires 0 <= i < |e.operands| => LegacyFlatIter(e.operands[i]))
  }

  // ---------------------------------------------------------------------
  // Nesting depth

  /** The number of operation heads minus the number of end markers. */
  function Depth(s: seq<Label>): int {
    if s == [] then 0 else Depth(s[..|s| - 1]) + Delta(s[|s| - 1])
  }

  /** Heads and end markers pair up like brackets: no prefix closes more
      operations than it opened, and the whole sequence closes them all. */
  ghost predicate Balanced(s: seq<Label>) {
    Depth(s) == 0 && forall k :: 0 <= k <= |s| ==> Depth(s[..k]) >= 0
  }

  /** Every non-empty proper prefix is still inside the first operation. */
  ghost predicate Enclosed(s: seq<Label>) {
    forall k :: 0 < k < |s| ==> Depth(s[..k]) > 0
  }

  lemma {:induction false} DepthAppend(a: seq<Label>, b: seq<Label>)
    ensures Depth(a + b) == Depth(a) + Depth(b)
  {
    if b != [] {
      var b' := b[..|b| - 1];
      assert (a + b)[..|a + b| - 1] == a + b';
      DepthAppend(a, b');
    } else {
      assert a + b == a;
    }
  }

  lemma BalancedAppend(a: seq<Label>, b: seq<Label>)
    requires Balanced(a) && Balanced(b)
    ensures Balanced(a + b)
  {
    DepthAppend(a, b);
    forall k | 0 <= k <= |a + b| ensures Depth((a + b)[..k]) >= 0 {
      if k <= |a| {
        assert (a + b)[..k] == a[..k];
      } else {
        assert (a + b)[..k] == a + b[..k - |a|];
        DepthAppend(a, b[..k - |a|]);
      }
    }
  }

  lemma {:induction false} BalancedConcat(parts: seq<seq<Label>>)
    requires forall i :: 0 <= i < |parts| ==> Balanced(parts[i])
    ensures Balanced(Concat(parts))
  {
    if parts != [] {
      BalancedConcat(parts[1..]);
      BalancedAppend(parts[0], Concat(parts[1..]));
    }
  }

  /** A balanced sequence between a head and an end marker is balanced
      and stays inside the operation until its last atom. */
  lemma Bracketed(h: OpType, c: seq<Label>)
    requires Balanced(c)
    ensures Balanced([Head(h)] + c + [End]) && Enclosed([Head(h)] + c + [End])
  {
    var s := [Head(h)] + c + [End];
    assert s[..|s| - 1] == [Head(h)] + c;
    DepthAppend([Head(h)], c);
    assert [Head(h)][..0] == [];
    forall k | 0 < k <= |s| - 1 ensures Depth(s[..k]) > 0 {
      assert s[..k] == [Head(h)] + c[..k - 1];
      DepthAppend([Head(h)], c[..k - 1]);
    }
    assert s[..|s|] == s;
  }

  /** A single atom that is neither a head nor an end marker is
      balanced. */
  lemma AtomBalanced(l: Label)
    requires Delta(l) == 0
    ensures Balanced([l])
  {
    assert [l][..0] == [];
    assert [l][..1] == [l];
  }

  /** Flattening an operation gives its head, the operands' flattenings in
      order and an end marker; every flatterm is balanced, and that of an
      operation stays inside it until its last atom. */
  lemma {:induction false} FlatBalanced(e: Expression)
    requires Supported(e)
    ensures Balanced(FlatIter(e))
    ensures e.Operation? ==> FlatIter(e) == [Head(e.op)] + Concat(OperandFlats(e)) + [End]
    ensures e.Operation? ==> Enclosed(FlatIter(e))
    decreases e
  {
    match e
    case Variable(_, x) =>
      FlatBalanced(x);
    case Operation(h, ops) =>
      var parts := OperandFlats(e);
      forall i | 0 <= i < |parts| ensures Balanced(parts[i]) {
        FlatBalanced(ops[i]);
      }
      BalancedConcat(parts);
      Bracketed(h, Concat(parts));
    case Symbol(n, c) =>
      AtomBalanced(Sym(n, c));
    case Wildcard(m, f) =>
      AtomBalanced(Wild(m, f));
    case SymbolWildcard(t) =>
      AtomBalanced(SymbolType(t));
  }

  /** `e` with every variable replaced by the expression it names. */
  function StripVariables(e: Expression): (r: Expression)
    decreases e, 1
  {
    match e
    case Variable(_, x) => StripVariables(x)
    case Operation(h, ops) => Operation(h, StrippedOperands(e))
    case _ => e
  }

  function StrippedOperands(e: Expression): (r: seq<Expression>)
    requires e.Operation?
    decreases e, 0
  {
    seq(|e.operands|, i requires 0 <= i < |e.operands| => StripVariables(e.operands[i]))
  }

  /** Variables are transparent: removing every variable, at any depth,
      changes neither whether `e` can be flattened nor its flatterm. */
  lemma {:induction false} VariablesTransparent(e: Expression)
    ensures Supported(StripVariables(e)) == Supported(e)
    ensures Supported(e) ==> FlatIter(StripVariables(e)) == FlatIter(e)
    decreases e
  {
    match e
    case Variable(_, x) =>
      VariablesTransparent(x);
    case Operation(h, ops) =>
      var e' := StripVariables(e);
      assert e' == Operation(h, StrippedOperands(e));
      forall i | 0 <= i < |ops| ensures Supported(e'.operands[i]) == Supported(ops[i]) {
        VariablesTransparent(ops[i]);
      }
      if Supported(e) {
        forall i | 0 <= i < |ops| ensures OperandFlats(e')[i] == OperandFlats(e)[i] {
          VariablesTransparent(ops[i]);
        }
        assert OperandFlats(e') == OperandFlats(e);
      }
    case _ =>
  }

  // ---------------------------------------------------------------------
  // `_combined_wildcards_iter`

  /** Two adjacent wildcards merged into one. */
  function Join(a: Label, b: Label): (r: Label)
    requires a.Wild? && b.Wild?
  {
    Wild(a.min + b.min, a.fixed && b.fixed)
  }

  /** Appending `t` to an already merged sequence `m`. */
  function Step(m: seq<Label>, t: Label): seq<Label> {
    if t.Wild? && m != [] && m[|m| - 1].Wild? then m[..|m| - 1] + [Join(m[|m| - 1], t)] else m + [t]
  }

  /** `s` with every run of adjacent wildcards merged into one wildcard. */
  function Merge(s: seq<Label>): seq<Label> {
    if s == [] then [] else Step(Merge(s[..|s| - 1]), s[|s| - 1])
  }

  /** No two adjacent atoms are wildcards. */
  predicate NoAdjacentWilds(s: seq<Label>) {
    forall i :: 0 <= i < |s| - 1 ==> !(s[i].Wild? && s[i + 1].Wild?)
  }

  /** The atoms of `s` that are not wildcards, in order. */
  function Solid(s: seq<Label>): seq<Label> {
    if s == [] then [] else Solid(s[..|s| - 1]) + (if s[|s| - 1].Wild? then [] else [s[|s| - 1]])
  }

  /** The sum of the `min_count`s of a run of wildcards. */
  function TotalMin(run: seq<Label>): nat
    requires forall i :: 0 <= i < |run| ==> run[i].Wild?
  {
    if run == [] then 0 else TotalMin(run[..|run| - 1]) + run[|run| - 1].min
  }

  /** Whether every wildcard of a run has a fixed size. */
  predicate AllFixed(run: seq<Label>)
    requires forall i :: 0 <= i < |run| ==> run[i].Wild?
  {
    forall i :: 0 <= i < |run| ==> run[i].fixed
  }

  lemma StepNoAdjacent(m: seq<Label>, t: Label)
    requires NoAdjacentWilds(m)
    ensures NoAdjacentWilds(Step(m, t))
    ensures Step(m, t) != [] && Step(m, t)[|Step(m, t)| - 1].Wild? == t.Wild?
  {
  }

  lemma {:induction false} MergeNoAdjacent(s: seq<Label>)
    ensures NoAdjacentWilds(Merge(s))
    ensures s != [] ==> Merge(s) != [] && Merge(s)[|Merge(s)| - 1].Wild? == s[|s| - 1].Wild?
  {
    if s != [] {
      MergeNoAdjacent(s[..|s| - 1]);
      StepNoAdjacent(Merge(s[..|s| - 1]), s[|s| - 1]);
    }
  }

  lemma {:induction false} SolidAppend(a: seq<Label>, b: seq<Label>)
    ensures Solid(a + b) == Solid(a) + Solid(b)
  {
    if b == [] {
      assert a + b == a;
    } else {
      assert (a + b)[..|a + b| - 1] == a + b[..|b| - 1];
      SolidAppend(a, b[..|b| - 1]);
    }
  }

  /** Merging keeps every atom that is not a wildcard, in its order. */
  lemma {:induction false} MergeKeepsSolid(s: seq<Label>)
    ensures Solid(Merge(s)) == Solid(s)
  {
    if s != [] {
      var s' := s[..|s| - 1];
      var m := Merge(s');
      var t := s[|s| - 1];
      MergeKeepsSolid(s');
      if t.Wild? && m != [] && m[|m| - 1].Wild? {
        assert m == m[..|m| - 1] + [m[|m| - 1]];
        SolidAppend(m[..|m| - 1], [m[|m| - 1]]);
        SolidAppend(m[..|m| - 1], [Join(m[|m| - 1], t)]);
        assert Solid([Join(m[|m| - 1], t)]) == [];
        assert Solid([m[|m| - 1]]) == [];
      } else {
        SolidAppend(m, [t]);
        assert Solid([t]) == if t.Wild? then [] else [t];
      }
    }
  }

  /** A run of wildcards merges into one wildcard whose `min_count` is the
      sum of theirs and whose size is fixed iff all of theirs are. */
  lemma {:induction false} MergeRun(run: seq<Label>)
    requires run != [] && forall i :: 0 <= i < |run| ==> run[i].Wild?
    ensures Merge(run) == [Wild(TotalMin(run), AllFixed(run))]
  {
    var r' := run[..|run| - 1];
    if r' == [] {
      assert run == [run[0]];
    } else {
      MergeRun(r');
    }
  }

  lemma StepAfter(x: seq<Label>, y: seq<Label>, u: Label)
    requires y != [] || x == [] || !x[|x| - 1].Wild?
    ensures Step(x + y, u) == x + Step(y, u)
  {
    if y != [] {
      assert (x + y)[..|x + y| - 1] == x + y[..|y| - 1];
    } else {
      assert x + y == x;
    }
  }

  /** An atom that is not a wildcard separates the merging of what comes
      before it from that of what comes after it. */
  lemma {:induction false} MergeSplit(a: seq<Label>, t: Label, b: seq<Label>)
    requires !t.Wild?
    ensures Merge(a + [t] + b) == Merge(a) + [t] + Merge(b)
  {
    if b == [] {
      assert a + [t] + b == a + [t];
      assert (a + [t])[..|a|] == a;
    } else {
      var b' := b[..|b| - 1];
      var u := b[|b| - 1];
      MergeSplit(a, t, b');
      assert (a + [t] + b)[..|a + [t] + b| - 1] == a + [t] + b';
      MergeNoAdjacent(b');
      StepAfter(Merge(a) + [t], Merge(b'), u);
    }
  }

  /** A sequence is left as it is by merging iff it has no adjacent
      wildcards; hence merging is idempotent. */
  lemma {:induction false} MergeIdentity(s: seq<Label>)
    ensures Merge(s) == s <==> NoAdjacentWilds(s)
    ensures Merge(Merge(s)) == Merge(s)
  {
    MergeNoAdjacent(s);
    if NoAdjacentWilds(s) {
      FixedPoint(s);
    }
    FixedPoint(Merge(s));
  }

  lemma {:induction false} FixedPoint(s: seq<Label>)
    requires NoAdjacentWilds(s)
    ensures Merge(s) == s
  {
    if s != [] {
      var s' := s[..|s| - 1];
      FixedPoint(s');
      assert s == s' + [s[|s| - 1]];
    }
  }

  /** `Merge(x + b)`: the atoms of `b` appended one by one to the merged
      `x`. */
  function Steps(m: seq<Label>, b: seq<Label>): seq<Label> {
    if b == [] then m else Step(Steps(m, b[..|b| - 1]), b[|b| - 1])
  }

  lemma {:induction false} MergeAppend(x: seq<Label>, b: seq<Label>)
    ensures Merge(x + b) == Steps(Merge(x), b)
  {
    if b == [] {
      assert x + b == x;
    } else {
      assert (x + b)[..|x + b| - 1] == x + b[..|b| - 1];
      MergeAppend(x, b[..|b| - 1]);
    }
  }

  lemma StepJoin(x: seq<Label>, w: Label, u: Label)
    requires w.Wild? && u.Wild?
    ensures Step(Step(x, w), u) == Step(x, Join(w, u))
  {
    if x != [] && x[|x| - 1].Wild? {
      var y := Step(x, w);
      assert y[..|y| - 1] == x[..|x| - 1];
    }
  }

  lemma {:induction false} StepsMerged(m: seq<Label>, b: seq<Label>)
    ensures Steps(m, Merge(b)) == Steps(m, b)
  {
    if b != [] {
      var b' := b[..|b| - 1];
      var u := b[|b| - 1];
      StepsMerged(m, b');
      var c := Merge(b');
      if u.Wild? && c != [] && c[|c| - 1].Wild? {
        var w := c[|c| - 1];
        var c' := c[..|c| - 1];
        assert Merge(b) == c' + [Join(w, u)];
        assert (c' + [Join(w, u)])[..|c'|] == c';
        assert c == c' + [w];
        assert (c' + [w])[..|c'|] == c';
        StepJoin(Steps(m, c'), w, u);
      } else {
        assert Merge(b) == c + [u];
        assert (c + [u])[..|c|] == c;
      }
    }
  }

  /** Merging flatterms that are already merged gives the same as merging
      their raw concatenation. */
  lemma {:induction false} MergeCongruent(a: seq<Label>, b: seq<Label>)
    ensures Merge(Merge(a) + Merge(b)) == Merge(a + b)
  {
    MergeAppend(Merge(a), Merge(b));
    MergeIdentity(a);
    StepsMerged(Merge(a), b);
    MergeAppend(a, b);
  }

  /** The merged flatterms, one per element of `fts`. */
  function MergedEach(fts: seq<seq<Label>>): (r: seq<seq<Label>>)
    ensures |r| == |fts| && forall i :: 0 <= i < |fts| ==> r[i] == Merge(fts[i])
  {
    if fts == [] then [] else [Merge(fts[0])] + MergedEach(fts[1..])
  }

  lemma {:induction false} MergeConcat(fts: seq<seq<Label>>)
    ensures Merge(Concat(MergedEach(fts))) == Merge(Concat(fts))
  {
    if fts != [] {
      MergeConcat(fts[1..]);
      assert MergedEach(fts)[1..] == MergedEach(fts[1..]);
      var a := fts[0];
      var rest := Concat(fts[1..]);
      var rest' := Concat(MergedEach(fts[1..]));
      MergeIdentity(a);
      MergeCongruent(Merge(a), rest');
      MergeCongruent(a, rest);
    }
  }

  /** Every prefix of `r` has the depth of some prefix of `s`. */
  ghost predicate DepthsFrom(r: seq<Label>, s: seq<Label>) {
    forall k :: 0 <= k <= |r| ==> exists j :: 0 <= j <= |s| && Depth(r[..k]) == Depth(s[..j])
  }

  /** Appending `t` to the merged `m` of a prefix `s'` of `s`. */
  lemma MergeDepthStep(s': seq<Label>, t: Label, m: seq<Label>, s: seq<Label>)
    requires s == s' + [t] && Depth(m) == Depth(s') && DepthsFrom(m, s')
    ensures Depth(Step(m, t)) == Depth(s) && DepthsFrom(Step(m, t), s)
  {
    var r := Step(m, t);
    assert s[..|s| - 1] == s' && s[..|s|] == s;
    forall j | 0 <= j <= |s'| ensures s[..j] == s'[..j] {
    }
    if t.Wild? && m != [] && m[|m| - 1].Wild? {
      MergeDepthWild(m, t, s', s);
    } else {
      assert r[..|r| - 1] == m;
      forall k | 0 <= k <= |r| ensures exists j :: 0 <= j <= |s| && Depth(r[..k]) == Depth(s[..j]) {
        if k == |r| {
          assert r[..k] == r;
        } else {
          assert r[..k] == m[..k];
        }
      }
    }
  }

  lemma MergeDepthWild(m: seq<Label>, t: Label, s': seq<Label>, s: seq<Label>)
    requires t.Wild? && m != [] && m[|m| - 1].Wild?
    requires s == s' + [t] && Depth(m) == Depth(s') && DepthsFrom(m, s')
    requires forall j :: 0 <= j <= |s'| ==> s[..j] == s'[..j]
    ensures Depth(Step(m, t)) == Depth(s) && DepthsFrom(Step(m, t), s)
  {
    var r := Step(m, t);
    assert r[..|r| - 1] == m[..|m| - 1];
    assert m[..|m| - 1] == m[..|m|][..|m| - 1];
    assert Depth(r) == Depth(s) by {
      assert m[..|m|] == m;
      assert s[..|s| - 1] == s';
    }
    forall k | 0 <= k <= |r| ensures exists j :: 0 <= j <= |s| && Depth(r[..k]) == Depth(s[..j]) {
      if k == |r| {
        assert r[..k] == r;
        assert s[..|s|] == s;
      } else {
        assert r[..k] == m[..k];
      }
    }
  }

  lemma {:induction false} MergeDepth(s: seq<Label>)
    ensures Depth(Merge(s)) == Depth(s)
    ensures forall k :: 0 <= k <= |Merge(s)| ==> exists j :: 0 <= j <= |s| && Depth(Merge(s)[..k]) == Depth(s[..j])
  {
    if s == [] {
      assert Merge(s)[..0] == s[..0];
    } else {
      var s' := s[..|s| - 1];
      MergeDepth(s');
      assert s == s' + [s[|s| - 1]];
      MergeDepthStep(s', s[|s| - 1], Merge(s'), s);
      assert DepthsFrom(Merge(s), s);
    }
  }

  /** Merging keeps a flatterm balanced. */
  lemma MergeBalanced(s: seq<Label>)
    requires Balanced(s)
    ensures Balanced(Merge(s))
  {
    MergeDepth(s);
  }

  /** `_combined_wildcards_iter`: every run of adjacent wildcards replaced by
      one. Both syntactic modules share this loop. */
  method CombinedWildcards(flatterm: seq<Label>) returns (out: seq<Label>)
    ensures out == Merge(flatterm)
  {
    var lastWildcard: Option<Label> := None;
    out := [];
    for i := 0 to |flatterm|
      invariant lastWildcard.Some? ==> lastWildcard.value.Wild?
      invariant lastWildcard.None? ==> out == [] || !out[|out| - 1].Wild?
      invariant out + (if lastWildcard.Some? then [lastWildcard.value] else []) == Merge(flatterm[..i])
    {
      var term := flatterm[i];
      assert flatterm[..i + 1][..i] == flatterm[..i];
      if term.Wild? {
        if lastWildcard.Some? {
          assert (out + [lastWildcard.value])[..|out|] == out;
          lastWildcard := Some(Join(lastWildcard.value, term));
        } else {
          lastWildcard := Some(term);
        }
      } else {
        if lastWildcard.Some? {
          out := out + [lastWildcard.value];
          lastWildcard := None;
        }
        out := out + [term];
      }
    }
    assert flatterm[..|flatterm|] == flatterm;
    if lastWildcard.Some? {
      out := out + [lastWildcard.value];
    }
  }

  /** `FlatTerm(expression)`. */
  function FlatTerm(e: Expression): seq<Label>
    requires Supported(e)
  {
    Merge(FlatIter(e))
  }

  /** The `FlatTerm` constructor on an expression. */
  method NewFlatTerm(e: Expression) returns (ft: seq<Label>)
    requires Supported(e)
    ensures ft == FlatTerm(e)
    ensures Balanced(ft) && NoAdjacentWilds(ft)
  {
    FlatBalanced(e);
    MergeBalanced(FlatIter(e));
    MergeNoAdjacent(FlatIter(e));
    ft := CombinedWildcards(FlatIter(e));
  }

  /** `FlatTerm.merged`: the flatterms concatenated, with runs of wildcards
      merged also across their boundaries; pre-merging each part makes no
      difference. */
  method Merged(flatterms: seq<seq<Label>>) returns (ft: seq<Label>)
    ensures ft == Merge(Concat(flatterms))
    ensures ft == Merge(Concat(MergedEach(flatterms)))
    ensures NoAdjacentWilds(ft)
  {
    MergeConcat(flatterms);
    MergeNoAdjacent(Concat(flatterms));
    ft := CombinedWildcards(Concat(flatterms));
  }

  // ---------------------------------------------------------------------
  // `is_syntactic` and `__add__`

  /** An atom that keeps a flatterm from being syntactic. */
  predicate NonSyntactic(l: Label) {
    (l.Wild? && !l.fixed) || (l.Head? && (l.head.commutative || l.head.associative))
  }

  /** `FlatTerm.is_syntactic`. */
  function IsSyntactic(ft: seq<Label>): (r: bool)
    ensures r <==> forall i :: 0 <= i < |ft| ==> !NonSyntactic(ft[i])
  {
    if ft == [] then true
    else if NonSyntactic(ft[0]) then false
    else (assert forall i :: 0 < i < |ft| ==> ft[i] == ft[1..][i - 1]; IsSyntactic(ft[1..]))
  }

  /** Merging does not change whether a flatterm is syntactic. */
  lemma {:induction false} MergeSyntactic(s: seq<Label>)
    ensures IsSyntactic(Merge(s)) == IsSyntactic(s)
  {
    if s != [] {
      var s' := s[..|s| - 1];
      MergeSyntactic(s');
      var m := Merge(s');
      var t := s[|s| - 1];
      assert s == s' + [t];
      AppendFacts(s', [t]);
      if t.Wild? && m != [] && m[|m| - 1].Wild? {
        var m0 := m[..|m| - 1];
        assert m == m0 + [m[|m| - 1]];
        AppendFacts(m0, [m[|m| - 1]]);
        AppendFacts(m0, [Join(m[|m| - 1], t)]);
      } else {
        AppendFacts(m, [t]);
      }
    }
  }

  lemma AppendFacts(a: seq<Label>, b: seq<Label>)
    ensures IsSyntactic(a + b) == (IsSyntactic(a) && IsSyntactic(b))
    ensures Depth(a + b) == Depth(a) + Depth(b)
    ensures Balanced(a) && Balanced(b) ==> Balanced(a + b)
  {
    DepthAppend(a, b);
    if Balanced(a) && Balanced(b) {
      BalancedAppend(a, b);
    }
    assert forall i :: 0 <= i < |a| ==> a[i] == (a + b)[i];
    assert forall i :: 0 <= i < |b| ==> b[i] == (a + b)[|a| + i];
  }

  /** `FlatTerm.__add__`: concatenation, without merging; the sum is
      syntactic iff both parts are, and its depth is the sum of theirs. */
  function Add(a: seq<Label>, b: seq<Label>): (r: seq<Label>)
    ensures IsSyntactic(r) == (IsSyntactic(a) && IsSyntactic(b))
    ensures Depth(r) == Depth(a) + Depth(b)
    ensures Balanced(a) && Balanced(b) ==> Balanced(r)
  {
    AppendFacts(a, b);
    a + b
  }
}
