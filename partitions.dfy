/** Ordered partitions of a list under per-part size limits
    (`partitions_with_limits` in patternmatcher/utils.py) and Knuth's
    Algorithm H for the partitions of an integer into a fixed number of parts
    (`partitions_with_count`). */
module Partitions {
  import opened Sequences

  /** `list(range(lo, hi))`. */
  function Range(lo: int, hi: int): (r: seq<int>)
    ensures forall x :: x in r <==> lo <= x < hi
    ensures forall k :: 0 <= k < |r| ==> r[k] == lo + k
    decreases hi - lo
  {
    if hi <= lo then [] else [lo] + Range(lo + 1, hi)
  }

  /** `itertools.product(*rs)`: every choice of one element from each list,
      the first list varying slowest. */
  function Product<T>(rs: seq<seq<T>>): seq<seq<T>> {
    if rs == [] then [[]] else ProductWith(rs[0], Product(rs[1..]))
  }

  function ProductWith<T>(heads: seq<T>, tails: seq<seq<T>>): seq<seq<T>> {
    if heads == [] then [] else Prepend(heads[0], tails) + ProductWith(heads[1..], tails)
  }

  lemma {:induction false} ProductWithMembership<T>(heads: seq<T>, tails: seq<seq<T>>, xs: seq<T>)
    ensures xs in ProductWith(heads, tails) <==> |xs| >= 1 && xs[0] in heads && xs[1..] in tails
  {
    if heads != [] {
      ProductWithMembership(heads[1..], tails, xs);
      var pre := Prepend(heads[0], tails);
      if xs in pre {
        var k :| 0 <= k < |pre| && pre[k] == xs;
        assert xs[1..] == tails[k];
      }
      if |xs| >= 1 && xs[0] == heads[0] && xs[1..] in tails {
        var k :| 0 <= k < |tails| && tails[k] == xs[1..];
        assert pre[k] == xs;
      }
    }
  }

  /** A tuple is produced exactly when each component comes from its list. */
  lemma {:induction false} ProductMembership<T>(rs: seq<seq<T>>, xs: seq<T>)
    ensures xs in Product(rs) <==> |xs| == |rs| && forall i :: 0 <= i < |rs| ==> xs[i] in rs[i]
  {
    if rs == [] {
    } else {
      ProductWithMembership(rs[0], Product(rs[1..]), xs);
      if |xs| >= 1 {
        ProductMembership(rs[1..], xs[1..]);
        if |xs| == |rs| && forall i :: 0 <= i < |rs| ==> xs[i] in rs[i] {
          assert forall i :: 0 <= i < |rs| - 1 ==> xs[1..][i] in rs[1..][i] by {
            forall i | 0 <= i < |rs| - 1 ensures xs[1..][i] in rs[1..][i] {
              assert xs[1..][i] == xs[i + 1] && rs[1..][i] == rs[i + 1];
            }
          }
        }
        if xs in Product(rs) {
          forall i | 0 <= i < |rs| ensures xs[i] in rs[i] {
            if i > 0 {
              assert xs[1..][i - 1] in rs[1..][i - 1];
            }
          }
        }
      }
    }
  }

  /** Consecutive slices of `values` of the given lengths. */
  function SliceBy<T>(values: seq<T>, lens: seq<int>): seq<seq<T>>
    requires forall i :: 0 <= i < |lens| ==> lens[i] >= 0
    requires Sum(lens) == |values|
  {
    if lens == [] then []
    else
      SumNonNeg(lens[1..]);
      [values[..lens[0]]] + SliceBy(values[lens[0]..], lens[1..])
  }

  /** Slicing and concatenating are inverse: the slices concatenate back to
      `values` and have the requested lengths, ... */
  lemma {:induction false} SliceByParts<T>(values: seq<T>, lens: seq<int>)
    requires forall i :: 0 <= i < |lens| ==> lens[i] >= 0
    requires Sum(lens) == |values|
    ensures Concat(SliceBy(values, lens)) == values
    ensures Lengths(SliceBy(values, lens)) == lens
  {
    if lens != [] {
      SumNonNeg(lens[1..]);
      SliceByParts(values[lens[0]..], lens[1..]);
      assert values == values[..lens[0]] + values[lens[0]..];
    }
  }

  /** ... and a list of lists is the slicing of its concatenation by its
      lengths. */
  lemma {:induction false} SliceByConcat<T>(ps: seq<seq<T>>)
    ensures Sum(Lengths(ps)) == |Concat(ps)|
    ensures SliceBy(Concat(ps), Lengths(ps)) == ps
  {
    ConcatLength(ps);
    if ps != [] {
      SliceByConcat(ps[1..]);
      assert Lengths(ps)[1..] == Lengths(ps[1..]);
      var c := Concat(ps);
      assert c[..|ps[0]|] == ps[0] && c[|ps[0]|..] == Concat(ps[1..]);
    }
  }

  /** The slicing loop of `partitions_with_limits`. */
  method Slices<T>(values: seq<T>, lens: seq<int>) returns (v: seq<seq<T>>)
    requires forall i :: 0 <= i < |lens| ==> lens[i] >= 0
    requires Sum(lens) == |values|
    ensures v == SliceBy(values, lens)
  {
    v := [];
    var i, k := 0, 0;
    while k < |lens|
      invariant 0 <= k <= |lens| && 0 <= i <= |values|
      invariant i + Sum(lens[k..]) == |values|
      invariant v + SliceBy(values[i..], lens[k..]) == SliceBy(values, lens)
    {
      var c := lens[k];
      assert lens[k..][1..] == lens[k + 1..];
      SumNonNeg(lens[k + 1..]);
      assert values[i..][..c] == values[i..i + c] && values[i..][c..] == values[i + c..];
      v := v + [values[i..i + c]];
      i, k := i + c, k + 1;
    }
    assert lens[k..] == [];
  }

  function Mins(limits: seq<(int, int)>): (ms: seq<int>)
    ensures |ms| == |limits| && forall i :: 0 <= i < |limits| ==> ms[i] == limits[i].0
  {
    if limits == [] then [] else [limits[0].0] + Mins(limits[1..])
  }

  /** `p` splits `values` into `|limits|` consecutive slices, slice `i` having
      between `limits[i].0` and `limits[i].1` elements. */
  predicate IsLimitedPartition<T(==)>(values: seq<T>, limits: seq<(int, int)>, p: seq<seq<T>>) {
    |p| == |limits| && Concat(p) == values &&
    forall i :: 0 <= i < |p| ==> limits[i].0 <= |p[i]| <= limits[i].1
  }

  /** The candidate sizes of one slice: from the minimum up to the maximum,
      clipped to the minimum plus what the other minima leave over. */
  predicate InClippedRange(limit: (int, int), varCount: int, x: int) {
    limit.0 <= x <= limit.1 && x <= limit.0 + varCount
  }

  /** The first loop of `partitions_with_limits`, building `counts`. */
  method ClippedRanges(limits: seq<(int, int)>, varCount: int) returns (counts: seq<seq<int>>)
    ensures |counts| == |limits|
    ensures forall i :: 0 <= i < |limits| ==> forall x :: x in counts[i] <==> InClippedRange(limits[i], varCount, x)
  {
    counts := [];
    var k := 0;
    while k < |limits|
      invariant 0 <= k <= |limits| && |counts| == k
      invariant forall i :: 0 <= i < k ==> forall x :: x in counts[i] <==> InClippedRange(limits[i], varCount, x)
    {
      var minCount, maxCount := limits[k].0, limits[k].1;
      if maxCount > minCount + varCount {
        maxCount := minCount + varCount;
      }
      counts := counts + [Range(minCount, maxCount + 1)];
      k := k + 1;
    }
  }

  /** The slice lengths of every admissible partition are among the candidates. */
  lemma LengthsInProduct<T>(values: seq<T>, limits: seq<(int, int)>, counts: seq<seq<int>>, p: seq<seq<T>>)
    requires |counts| == |limits|
    requires forall i :: 0 <= i < |limits| ==> forall x :: x in counts[i] <==>
      InClippedRange(limits[i], |values| - Sum(Mins(limits)), x)
    requires IsLimitedPartition(values, limits, p)
    ensures Lengths(p) in Product(counts)
  {
    var ls := Lengths(p);
    ConcatLength(p);
    forall i | 0 <= i < |limits| ensures ls[i] in counts[i] {
      SlackBound(ls, Mins(limits), i);
    }
    ProductMembership(counts, ls);
  }

  /** A candidate from the product has a non-negative size within the limits
      in every position. */
  lemma CandidateInLimits(limits: seq<(int, int)>, counts: seq<seq<int>>, varCount: int, cp: seq<int>)
    requires |counts| == |limits|
    requires forall i :: 0 <= i < |limits| ==> limits[i].0 >= 0
    requires forall i :: 0 <= i < |limits| ==> forall x :: x in counts[i] <==> InClippedRange(limits[i], varCount, x)
    requires cp in Product(counts)
    ensures |cp| == |limits| && forall i :: 0 <= i < |cp| ==> 0 <= limits[i].0 <= cp[i] <= limits[i].1
  {
    ProductMembership(counts, cp);
    forall i | 0 <= i < |cp| ensures 0 <= limits[i].0 <= cp[i] <= limits[i].1 {
      assert cp[i] in counts[i];
    }
  }

  /** `parts` holds admissible partitions only, and every admissible partition
      whose size vector is in `done`. */
  ghost predicate Collected<T(!new)>(values: seq<T>, limits: seq<(int, int)>, parts: seq<seq<seq<T>>>, done: seq<seq<int>>) {
    (forall p :: p in parts ==> IsLimitedPartition(values, limits, p)) &&
    (forall p :: IsLimitedPartition(values, limits, p) && Lengths(p) in done ==> p in parts)
  }

  /** One round of the loop over the product: a candidate whose sizes add up
      to `|values|` contributes its slicing, which is the one admissible
      partition with these sizes; any other candidate is the size vector of no
      admissible partition. */
  lemma AddCandidate<T(!new)>(values: seq<T>, limits: seq<(int, int)>, parts: seq<seq<seq<T>>>,
                        done: seq<seq<int>>, cp: seq<int>, parts': seq<seq<seq<T>>>)
    requires |cp| == |limits| && forall i :: 0 <= i < |cp| ==> 0 <= limits[i].0 <= cp[i] <= limits[i].1
    requires Collected(values, limits, parts, done)
    requires Sum(cp) == |values| ==> parts' == parts + [SliceBy(values, cp)]
    requires Sum(cp) != |values| ==> parts' == parts
    ensures Collected(values, limits, parts', done + [cp])
  {
    if Sum(cp) == |values| {
      SliceByParts(values, cp);
      var v := SliceBy(values, cp);
      assert IsLimitedPartition(values, limits, v);
      forall p | IsLimitedPartition(values, limits, p) && Lengths(p) == cp ensures p in parts' {
        SliceByConcat(p);
      }
    } else {
      forall p | IsLimitedPartition(values, limits, p) ensures Lengths(p) != cp {
        ConcatLength(p);
      }
    }
  }

  /** `partitions_with_limits(values, limits)`: every partition of `values` into
      consecutive slices within the limits, and nothing else. Each upper limit
      is first clipped to what the other minima leave over. Limits with a
      negative minimum are not modelled (Python would slice from the end). */
  method PartitionsWithLimits<T(==, !new)>(values: seq<T>, limits: seq<(int, int)>) returns (parts: seq<seq<seq<T>>>)
    requires forall i :: 0 <= i < |limits| ==> limits[i].0 >= 0
    ensures forall p :: p in parts ==> IsLimitedPartition(values, limits, p)
    ensures forall p :: IsLimitedPartition(values, limits, p) ==> p in parts
  {
    var count := |values|;
    var varCount := count - Sum(Mins(limits));
    var counts := ClippedRanges(limits, varCount);
    var product := Product(counts);
    parts := [];
    var n := 0;
    while n < |product|
      invariant 0 <= n <= |product|
      invariant Collected(values, limits, parts, product[..n])
    {
      var cp := product[n];
      CandidateInLimits(limits, counts, varCount, cp);
      ghost var before := parts;
      ghost var done := product[..n];
      if Sum(cp) == count {
        var v := Slices(values, cp);
        parts := parts + [v];
      }
      AddCandidate(values, limits, before, done, cp, parts);
      assert product[..n + 1] == product[..n] + [cp];
      n := n + 1;
    }
    assert product[..n] == product;
    forall p | IsLimitedPartition(values, limits, p) ensures p in parts {
      LengthsInProduct(values, limits, counts, p);
    }
  }
}
