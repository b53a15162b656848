/** Python's `sum` over a list of integers and the concatenation of a list of
    lists, with the facts about them that the combinatorial generators need. */
module Sequences {

  datatype Option<T> = None | Some(value: T)

  function Sum(s: seq<int>): int {
    if s == [] then 0 else s[0] + Sum(s[1..])
  }

  /** Concatenation of all the lists of `ps`, in order. */
  function Concat<T>(ps: seq<seq<T>>): seq<T> {
    if ps == [] then [] else ps[0] + Concat(ps[1..])
  }

  /** The lengths of the lists of `ps`. */
  function Lengths<T>(ps: seq<seq<T>>): (ls: seq<int>)
    ensures |ls| == |ps| && forall i :: 0 <= i < |ps| ==> ls[i] == |ps[i]|
  {
    if ps == [] then [] else [|ps[0]|] + Lengths(ps[1..])
  }

  lemma {:induction false} SumAppend(s: seq<int>, t: seq<int>)
    ensures Sum(s + t) == Sum(s) + Sum(t)
  {
    if s == [] {
      assert s + t == t;
    } else {
      assert (s + t)[1..] == s[1..] + t;
      SumAppend(s[1..], t);
    }
  }

  /** Adding `d` to one component adds `d` to the sum. */
  lemma {:induction false} SumUpdate(s: seq<int>, i: int, d: int)
    requires 0 <= i < |s|
    ensures Sum(s[i := s[i] + d]) == Sum(s) + d
  {
    if i > 0 {
      assert s[i := s[i] + d][1..] == s[1..][i - 1 := s[i] + d];
      SumUpdate(s[1..], i - 1, d);
    }
  }

  /** The sum of a list of non-negative numbers bounds each of them. */
  lemma {:induction false} SumBoundsElement(s: seq<int>, i: int)
    requires forall k :: 0 <= k < |s| ==> s[k] >= 0
    requires 0 <= i < |s|
    ensures s[i] <= Sum(s)
  {
    SumNonNeg(s[1..]);
    if i > 0 {
      SumBoundsElement(s[1..], i - 1);
    }
  }

  lemma {:induction false} SumNonNeg(s: seq<int>)
    requires forall k :: 0 <= k < |s| ==> s[k] >= 0
    ensures Sum(s) >= 0
  {
    if s != [] {
      SumNonNeg(s[1..]);
    }
  }

  /** Componentwise `s <= t` gives `Sum(s) <= Sum(t)`. */
  lemma {:induction false} SumMonotone(s: seq<int>, t: seq<int>)
    requires |s| == |t| && forall k :: 0 <= k < |s| ==> s[k] <= t[k]
    ensures Sum(s) <= Sum(t)
  {
    if s != [] {
      SumMonotone(s[1..], t[1..]);
    }
  }

  lemma {:induction false} ConcatLength<T>(ps: seq<seq<T>>)
    ensures |Concat(ps)| == Sum(Lengths(ps))
  {
    if ps != [] {
      ConcatLength(ps[1..]);
      assert Lengths(ps)[1..] == Lengths(ps[1..]);
    }
  }

  /** `[x] + t` for every `t` of `tails`, in order. */
  function Prepend<T>(x: T, tails: seq<seq<T>>): (r: seq<seq<T>>)
    ensures |r| == |tails| && forall k :: 0 <= k < |r| ==> r[k] == [x] + tails[k]
  {
    if tails == [] then [] else [[x] + tails[0]] + Prepend(x, tails[1..])
  }

  /** A component exceeds its minimum by no more than the whole vector exceeds
      the vector of minima. */
  lemma {:induction false} SlackBound(ls: seq<int>, ms: seq<int>, i: int)
    requires |ls| == |ms| && forall k :: 0 <= k < |ls| ==> ms[k] <= ls[k]
    requires 0 <= i < |ls|
    ensures ls[i] - ms[i] <= Sum(ls) - Sum(ms)
  {
    SumMonotone(ms[1..], ls[1..]);
    if i > 0 {
      SlackBound(ls[1..], ms[1..], i - 1);
    }
  }

  /** Splitting the sum at `j`: the parts before `j`, then `p[j]`, then the
      rest. */
  lemma SumSplit(p: seq<int>, j: nat)
    requires j < |p|
    ensures Sum(p) == Sum(p[..j]) + p[j] + Sum(p[j + 1..])
    ensures Sum(p[..j + 1]) == Sum(p[..j]) + p[j]
    ensures Sum(p[j..]) == p[j] + Sum(p[j + 1..])
    ensures j + 1 == |p| ==> Sum(p) == Sum(p[..j]) + p[j]
  {
    assert p == p[..j] + p[j..];
    SumAppend(p[..j], p[j..]);
    assert p[j..][1..] == p[j + 1..];
    assert p[..j + 1] == p[..j] + [p[j]];
    SumAppend(p[..j], [p[j]]);
    assert Sum([p[j]]) == p[j] + Sum([p[j]][1..]);
  }

  /** The sum of a list is the sum of its head part plus the sum of its tail
      part, wherever it is cut. */
  lemma SumCut(p: seq<int>, j: nat)
    requires j <= |p|
    ensures Sum(p) == Sum(p[..j]) + Sum(p[j..])
  {
    assert p == p[..j] + p[j..];
    SumAppend(p[..j], p[j..]);
  }

  lemma SumLast(p: seq<int>)
    requires p != []
    ensures Sum(p) == Sum(p[..|p| - 1]) + p[|p| - 1]
  {
    SumSplit(p, |p| - 1);
    assert p[..|p|] == p;
  }

  /** `k` copies of `x`. */
  function Repeat(x: int, k: nat): (r: seq<int>)
    ensures |r| == k && forall i :: 0 <= i < k ==> r[i] == x
    ensures Sum(r) == k * x
  {
    if k == 0 then [] else [x] + Repeat(x, k - 1)
  }

  /** Moving one element from the part of a set still to do to the part
      done. */
  lemma MoveOne<X>(all: set<X>, rest: set<X>, done: set<X>, x: X)
    requires x in rest && rest <= all && done == all - rest
    ensures rest - {x} < rest && rest - {x} <= all && done + {x} == all - (rest - {x})
  {
  }
}
