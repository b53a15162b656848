/** `fixed_sum_vector_iter` of patternmatcher/utils.py: every integer vector
    that lies componentwise between a vector of minima and a vector of maxima
    and whose components add up to a given total, each exactly once, in
    lexicographic order. */
module FixedSum {
  import opened Sequences
  import opened Positional

  function Min(a: int, b: int): int { if a <= b then a else b }

  function Max(a: int, b: int): int { if a >= b then a else b }

  /** Componentwise `lo <= v <= hi`. */
  predicate Within(v: seq<int>, lo: seq<int>, hi: seq<int>) {
    |v| == |lo| == |hi| && forall i {:trigger v[i]} :: 0 <= i < |v| ==> lo[i] <= v[i] <= hi[i]
  }

  /** Componentwise `w <= cap`. */
  predicate Below(w: seq<int>, cap: seq<int>) {
    |w| == |cap| && forall i {:trigger w[i]} :: 0 <= i < |w| ==> w[i] <= cap[i]
  }

  /** Bounds that admit a vector are ordered. */
  lemma WithinOrdered(v: seq<int>, lo: seq<int>, hi: seq<int>)
    requires Within(v, lo, hi)
    ensures Below(lo, hi)
  {
    forall i | 0 <= i < |lo|
      ensures lo[i] <= hi[i]
    {
      assert lo[i] <= v[i];
    }
  }

  /** The vectors the generator must produce. */
  predicate IsFixedSumVector(v: seq<int>, mins: seq<int>, maxs: seq<int>, total: int) {
    Within(v, mins, maxs) && Sum(v) == total
  }

  // ---------------------------------------------------------------------
  // Lexicographic order

  /** `a` and `b` agree before position `d` and `a` is smaller at `d`. */
  predicate LexAt(a: seq<int>, b: seq<int>, d: int) {
    |a| == |b| && 0 <= d < |a| && a[..d] == b[..d] && a[d] < b[d]
  }

  /** `a` comes strictly before `b` in lexicographic order. */
  ghost predicate LexLess(a: seq<int>, b: seq<int>) {
    exists d :: LexAt(a, b, d)
  }

  ghost predicate LexLe(a: seq<int>, b: seq<int>) {
    a == b || LexLess(a, b)
  }

  lemma LexAsymmetric(a: seq<int>, b: seq<int>)
    ensures !(LexLess(a, b) && LexLess(b, a))
  {
  }

  lemma LexTrans(a: seq<int>, b: seq<int>, c: seq<int>)
    requires LexLess(a, b) && LexLess(b, c)
    ensures LexLess(a, c)
  {
    var d1 :| LexAt(a, b, d1);
    var d2 :| LexAt(b, c, d2);
    if d1 < d2 {
      assert b[..d2][..d1] == c[..d2][..d1];
      assert b[..d2][d1] == c[..d2][d1];
      assert LexAt(a, c, d1);
    } else if d2 < d1 {
      assert a[..d1][..d2] == b[..d1][..d2];
      assert a[..d1][d2] == b[..d1][d2];
      assert LexAt(a, c, d2);
    } else {
      assert LexAt(a, c, d1);
    }
  }

  /** The first position where two different vectors of one length differ. */
  lemma {:induction false} FirstDifference(a: seq<int>, b: seq<int>) returns (d: int)
    requires |a| == |b| && a != b
    ensures 0 <= d < |a| && a[..d] == b[..d] && a[d] != b[d]
  {
    assert |a| > 0;
    var k := |a| - 1;
    assert a == a[..k] + [a[k]] && b == b[..k] + [b[k]];
    if a[..k] == b[..k] {
      d := k;
    } else {
      d := FirstDifference(a[..k], b[..k]);
      assert a[..k][..d] == a[..d] && b[..k][..d] == b[..d];
    }
  }

  /** The order is total. */
  lemma LexTotal(a: seq<int>, b: seq<int>)
    requires |a| == |b|
    ensures a == b || LexLess(a, b) || LexLess(b, a)
  {
    if a != b {
      var d := FirstDifference(a, b);
      if a[d] < b[d] {
        assert LexAt(a, b, d);
      } else {
        assert LexAt(b, a, d);
      }
    }
  }

  /** A componentwise smaller vector is lexicographically no larger. */
  lemma PointwiseLexLe(a: seq<int>, b: seq<int>)
    requires Below(a, b)
    ensures LexLe(a, b)
  {
    if a != b {
      var d := FirstDifference(a, b);
      assert LexAt(a, b, d);
    }
  }

  /** Appending one component to each side. */
  lemma LexSnoc(a: seq<int>, b: seq<int>, x: int, y: int)
    requires |a| == |b| && LexLe(a, b) && (a == b ==> x <= y)
    ensures LexLe(a + [x], b + [y])
  {
    if a == b {
      if x != y {
        assert (a + [x])[..|a|] == (b + [y])[..|a|];
        assert LexAt(a + [x], b + [y], |a|);
      }
    } else {
      var d :| LexAt(a, b, d);
      assert (a + [x])[..d] == a[..d] && (b + [y])[..d] == b[..d];
      assert LexAt(a + [x], b + [y], d);
    }
  }

  /** Prepending a common prefix. */
  lemma LexPrefixed(p: seq<int>, a: seq<int>, b: seq<int>)
    requires LexLe(a, b)
    ensures LexLe(p + a, p + b)
  {
    if a != b {
      var d :| LexAt(a, b, d);
      assert (p + a)[..|p| + d] == p + a[..d];
      assert (p + b)[..|p| + d] == p + b[..d];
      assert LexAt(p + a, p + b, |p| + d);
    }
  }

  // ---------------------------------------------------------------------
  // Filling from the right

  /** The filling loops of the generator: `e` units added to `w` from the
      right, each component raised to its cap before the one to its left
      receives anything. */
  function AddFromRight(w: seq<int>, cap: seq<int>, e: int): (r: seq<int>)
    requires |w| == |cap|
    ensures |r| == |w|
    decreases |w|
  {
    if w == [] || e <= 0 then w
    else
      var k := |w| - 1;
      var d := Min(cap[k] - w[k], e);
      AddFromRight(w[..k], cap[..k], e - d) + [w[k] + d]
  }

  /** One step of filling, at the last component. */
  lemma AddFromRightStep(w: seq<int>, cap: seq<int>, e: int, k: int, d: int)
    requires |w| == |cap| && k == |w| - 1 >= 0 && e > 0 && d == Min(cap[k] - w[k], e)
    ensures AddFromRight(w, cap, e) == AddFromRight(w[..k], cap[..k], e - d) + [w[k] + d]
  {
  }

  /** Filling stays between `w` and the caps and adds as much of `e` as the
      caps leave room for. */
  lemma AddFromRightBounds(w: seq<int>, cap: seq<int>, e: int)
    requires Below(w, cap) && e >= 0
    ensures Within(AddFromRight(w, cap, e), w, cap)
    ensures Sum(AddFromRight(w, cap, e)) == Sum(w) + Min(e, Sum(cap) - Sum(w))
  {
    AddFromRightWithin(w, cap, e);
    AddFromRightSum(w, cap, e);
  }

  lemma {:induction false} AddFromRightWithin(w: seq<int>, cap: seq<int>, e: int)
    requires Below(w, cap) && e >= 0
    ensures Within(AddFromRight(w, cap, e), w, cap)
    decreases |w|
  {
    if w != [] && e > 0 {
      var k := |w| - 1;
      var d := Min(cap[k] - w[k], e);
      var r' := AddFromRight(w[..k], cap[..k], e - d);
      var r := AddFromRight(w, cap, e);
      assert Below(w[..k], cap[..k]);
      AddFromRightWithin(w[..k], cap[..k], e - d);
      AddFromRightStep(w, cap, e, k, d);
      assert r[..k] == r' && r[k] == w[k] + d;
      forall i | 0 <= i < |w|
        ensures w[i] <= r[i] <= cap[i]
      {
        if i < k {
          assert r[i] == r'[i] && w[i] == w[..k][i] && cap[i] == cap[..k][i];
        }
      }
    }
  }

  lemma {:induction false} AddFromRightSum(w: seq<int>, cap: seq<int>, e: int)
    requires Below(w, cap) && e >= 0
    ensures Sum(AddFromRight(w, cap, e)) == Sum(w) + Min(e, Sum(cap) - Sum(w))
    decreases |w|
  {
    SumMonotone(w, cap);
    if w != [] && e > 0 {
      var k := |w| - 1;
      var d := Min(cap[k] - w[k], e);
      var r' := AddFromRight(w[..k], cap[..k], e - d);
      var r := AddFromRight(w, cap, e);
      assert Below(w[..k], cap[..k]);
      AddFromRightSum(w[..k], cap[..k], e - d);
      SumMonotone(w[..k], cap[..k]);
      SumLast(w);
      SumLast(cap);
      AddFromRightStep(w, cap, e, k, d);
      assert r[..k] == r' && r[k] == w[k] + d;
      SumLast(r);
    }
  }

  /** Filling in two rounds is filling once with both amounts. */
  lemma {:induction false} AddFromRightTwice(w: seq<int>, cap: seq<int>, e1: int, e2: int)
    requires |w| == |cap| && e1 >= 0 && e2 >= 0
    ensures AddFromRight(AddFromRight(w, cap, e1), cap, e2) == AddFromRight(w, cap, e1 + e2)
    decreases |w|
  {
    if w != [] && e1 > 0 && e2 > 0 {
      var k := |w| - 1;
      var a := Min(cap[k] - w[k], e1);
      var x' := AddFromRight(w[..k], cap[..k], e1 - a);
      var x := AddFromRight(w, cap, e1);
      AddFromRightStep(w, cap, e1, k, a);
      assert x[..k] == x' && x[k] == w[k] + a;
      var b := Min(cap[k] - x[k], e2);
      var c := Min(cap[k] - w[k], e1 + e2);
      calc {
        AddFromRight(x, cap, e2);
        == { AddFromRightStep(x, cap, e2, k, b); }
        AddFromRight(x[..k], cap[..k], e2 - b) + [x[k] + b];
        == { assert a + b == c; }
        AddFromRight(x', cap[..k], e2 - b) + [w[k] + c];
        == { AddFromRightTwice(w[..k], cap[..k], e1 - a, e2 - b);
             assert e1 - a + (e2 - b) == e1 + e2 - c; }
        AddFromRight(w[..k], cap[..k], e1 + e2 - c) + [w[k] + c];
        == { AddFromRightStep(w, cap, e1 + e2, k, c); }
        AddFromRight(w, cap, e1 + e2);
      }
    }
  }

  /** Filling a vector whose tail has room for all of `e` leaves its head
      part alone. */
  lemma {:induction false} AddFromRightSplit(p: seq<int>, cp: seq<int>, s: seq<int>, cs: seq<int>, e: int)
    requires |p| == |cp| && Below(s, cs) && 0 <= e <= Sum(cs) - Sum(s)
    ensures AddFromRight(p + s, cp + cs, e) == p + AddFromRight(s, cs, e)
    decreases |s|
  {
    if s == [] {
      assert p + s == p && cp + cs == cp;
    } else if e > 0 {
      var l := |s| - 1;
      var k := |p| + l;
      assert (p + s)[..k] == p + s[..l] && (cp + cs)[..k] == cp + cs[..l];
      assert (p + s)[k] == s[l] && (cp + cs)[k] == cs[l];
      var d := Min(cs[l] - s[l], e);
      SumLast(s);
      SumLast(cs);
      SumMonotone(s[..l], cs[..l]);
      AddFromRightSplit(p, cp, s[..l], cs[..l], e - d);
    }
  }

  /** Raising the last cap by one and taking that one unit back again is
      filling with one unit less under the original caps. */
  lemma AddFromRightRaisedLast(w: seq<int>, cap: seq<int>, e: int, k: int)
    requires Below(w, cap) && k == |w| - 1 >= 0 && e >= 1
    ensures var r := AddFromRight(w, cap[k := cap[k] + 1], e);
            |r| == |w| && r[k] > w[k] && r[k := r[k] - 1] == AddFromRight(w, cap, e - 1)
  {
    var cap' := cap[k := cap[k] + 1];
    assert cap'[..k] == cap[..k];
    var d' := Min(cap'[k] - w[k], e);
    AddFromRightStep(w, cap', e, k, d');
    if e > 1 {
      AddFromRightStep(w, cap, e - 1, k, d' - 1);
    } else {
      assert w == w[..k] + [w[k]];
    }
  }

  /** One round of filling, spelled out at the last component: the last
      component takes what it can and the rest moves one place left. */
  lemma AddFromRightUnfold(x: seq<int>, cap: seq<int>, e: int)
    requires |x| == |cap| && x != [] && e >= 0 && x[|x| - 1] <= cap[|x| - 1]
    ensures var k := |x| - 1;
            AddFromRight(x, cap, e)
            == if x[k] + e >= cap[k] then AddFromRight(x[..k], cap[..k], x[k] + e - cap[k]) + [cap[k]]
               else x[k := x[k] + e]
  {
    var k := |x| - 1;
    assert x == x[..k] + [x[k]];
  }

  /** The filled vector is the lexicographically smallest vector between the
      bounds whose sum reaches that of the fill. */
  lemma {:induction false} AddFromRightLeast(lo: seq<int>, hi: seq<int>, e: int, z: seq<int>)
    requires Within(z, lo, hi) && 0 <= e && Sum(z) >= Sum(lo) + e
    ensures LexLe(AddFromRight(lo, hi, e), z)
    decreases |lo|
  {
    if lo == [] || e == 0 {
      assert Below(lo, z);
      PointwiseLexLe(lo, z);
    } else {
      var k := |lo| - 1;
      var d := Min(hi[k] - lo[k], e);
      LeastSums(lo, hi, e, z, k, d);
      if d < e {
        AddFromRightLeast(lo[..k], hi[..k], e - d, z[..k]);
      }
      LeastStep(lo, hi, e, z, k, d);
    }
  }

  /** The facts one step of `AddFromRightLeast` needs about the head parts. */
  lemma LeastSums(lo: seq<int>, hi: seq<int>, e: int, z: seq<int>, k: int, d: int)
    requires Within(z, lo, hi) && 0 <= e && Sum(z) >= Sum(lo) + e
    requires 0 <= k && k + 1 == |lo| && d == Min(hi[k] - lo[k], e)
    ensures Within(z[..k], lo[..k], hi[..k]) && Below(lo[..k], hi[..k]) && Below(lo[..k], z[..k])
    ensures 0 <= e - d && Sum(z[..k]) + z[k] >= Sum(lo[..k]) + lo[k] + e
    ensures Sum(z[..k]) >= Sum(lo[..k]) + (e - d)
    ensures Sum(AddFromRight(lo[..k], hi[..k], e - d)) == Sum(lo[..k]) + (e - d)
  {
    PrefixWithin(z, lo, hi, k);
    WithinSums(z[..k], lo[..k], hi[..k]);
    WithinSums(z, lo, hi);
    SumsAtLast(z, lo, hi, e, k, d);
    AddFromRightSum(lo[..k], hi[..k], e - d);
  }

  /** One step of `AddFromRightLeast`: from the head parts to the whole. */
  lemma LeastStep(lo: seq<int>, hi: seq<int>, e: int, z: seq<int>, k: int, d: int)
    requires |z| == |lo| == |hi| && 0 <= k && k + 1 == |lo| && 0 < e && d == Min(hi[k] - lo[k], e)
    requires Below(lo[..k], z[..k]) && Sum(z[..k]) + z[k] >= Sum(lo[..k]) + lo[k] + e
    requires Sum(AddFromRight(lo[..k], hi[..k], e - d)) == Sum(lo[..k]) + (e - d)
    requires d < e ==> LexLe(AddFromRight(lo[..k], hi[..k], e - d), z[..k])
    ensures LexLe(AddFromRight(lo, hi, e), z)
  {
    var f := AddFromRight(lo[..k], hi[..k], e - d);
    var zk := z[..k];
    AddFromRightStep(lo, hi, e, k, d);
    if d == e {
      assert f == lo[..k];
      PointwiseLexLe(lo[..k], zk);
    }
    LexSnoc(f, zk, lo[k] + d, z[k]);
    assert z == zk + [z[k]];
  }

  /** The sum of a vector within the bounds lies between their sums. */
  lemma WithinSums(z: seq<int>, lo: seq<int>, hi: seq<int>)
    requires Within(z, lo, hi)
    ensures Sum(lo) <= Sum(z) <= Sum(hi)
  {
    SumMonotone(lo, z);
    SumMonotone(z, hi);
  }

  /** The sums in one step of `AddFromRightLeast`, cut before the last
      component. */
  lemma SumsAtLast(z: seq<int>, lo: seq<int>, hi: seq<int>, e: int, k: int, d: int)
    requires 0 <= k && |z| == |lo| == |hi| == k + 1 && d == Min(hi[k] - lo[k], e)
    requires Sum(lo[..k]) <= Sum(hi[..k]) && Sum(z) >= Sum(lo) + e && 0 <= e && Sum(z) <= Sum(hi)
    ensures Sum(z[..k]) + z[k] >= Sum(lo[..k]) + lo[k] + e
    ensures 0 <= e - d <= Sum(hi[..k]) - Sum(lo[..k])
  {
    SumSplit(z, k);
    SumSplit(lo, k);
    SumSplit(hi, k);
  }

  /** The head parts of a vector within the bounds and of the bounds. */
  lemma PrefixWithin(z: seq<int>, lo: seq<int>, hi: seq<int>, k: int)
    requires Within(z, lo, hi) && 0 <= k <= |z|
    ensures Within(z[..k], lo[..k], hi[..k])
    ensures Below(lo[..k], hi[..k]) && Below(lo[..k], z[..k])
  {
    WithinOrdered(z[..k], lo[..k], hi[..k]);
  }

  /** The two filling loops: hand out `remaining0` units to
      `values[..j0 + 1]` from position `j0` leftwards. The first loop of the
      generator caps each step at `hi[j] - lo[j]`, which is `hi[j] -
      values[j]` there since it runs on the lower bounds. */
  method Distribute(values: seq<int>, cap: seq<int>, j0: int, remaining0: int) returns (r: seq<int>)
    requires |values| == |cap| && -1 <= j0 < |values|
    requires forall i :: 0 <= i <= j0 ==> values[i] <= cap[i]
    requires 0 <= remaining0 <= Sum(cap[..j0 + 1]) - Sum(values[..j0 + 1])
    ensures r == AddFromRight(values[..j0 + 1], cap[..j0 + 1], remaining0) + values[j0 + 1..]
  {
    r := values;
    var j, remaining := j0, remaining0;
    while remaining > 0
      invariant -1 <= j <= j0 && |r| == |values|
      invariant forall i :: 0 <= i <= j ==> r[i] <= cap[i]
      invariant 0 <= remaining <= Sum(cap[..j + 1]) - Sum(r[..j + 1])
      invariant AddFromRight(values[..j0 + 1], cap[..j0 + 1], remaining0) + values[j0 + 1..]
             == AddFromRight(r[..j + 1], cap[..j + 1], remaining) + r[j + 1..]
      decreases j
    {
      var toAdd := Min(cap[j] - r[j], remaining);
      DistributeStep(r, cap, j, remaining, toAdd);
      r := r[j := r[j] + toAdd];
      remaining := remaining - toAdd;
      j := j - 1;
    }
    assert r[..j + 1] + r[j + 1..] == r;
  }

  /** One round of the filling loops, at position `j`. */
  lemma DistributeStep(r: seq<int>, cap: seq<int>, j: int, remaining: int, toAdd: int)
    requires |r| == |cap| && 0 <= j < |r| && remaining > 0 && toAdd == Min(cap[j] - r[j], remaining)
    requires forall i :: 0 <= i <= j ==> r[i] <= cap[i]
    requires remaining <= Sum(cap[..j + 1]) - Sum(r[..j + 1])
    ensures var r' := r[j := r[j] + toAdd];
            (forall i :: 0 <= i < j ==> r'[i] <= cap[i]) &&
            0 <= remaining - toAdd <= Sum(cap[..j]) - Sum(r'[..j]) &&
            AddFromRight(r[..j + 1], cap[..j + 1], remaining) + r[j + 1..]
            == AddFromRight(r'[..j], cap[..j], remaining - toAdd) + r'[j..]
  {
    var r' := r[j := r[j] + toAdd];
    assert r'[..j] == r[..j] && r[..j + 1][..j] == r[..j] && cap[..j + 1][..j] == cap[..j];
    AddFromRightStep(r[..j + 1], cap[..j + 1], remaining, j, toAdd);
    assert r'[j..] == [r[j] + toAdd] + r[j + 1..];
    DistributeBound(r, cap, j, remaining, toAdd);
  }

  /** What is left after filling position `j` fits below the caps of the
      positions before it. */
  lemma DistributeBound(r: seq<int>, cap: seq<int>, j: int, remaining: int, toAdd: int)
    requires |r| == |cap| && 0 <= j < |r| && remaining > 0 && toAdd == Min(cap[j] - r[j], remaining)
    requires forall i :: 0 <= i <= j ==> r[i] <= cap[i]
    requires remaining <= Sum(cap[..j + 1]) - Sum(r[..j + 1])
    ensures 0 <= remaining - toAdd <= Sum(cap[..j]) - Sum(r[..j])
  {
    assert Below(r[..j], cap[..j]);
    SumMonotone(r[..j], cap[..j]);
    SumSplit(r[..j + 1], j);
    SumSplit(cap[..j + 1], j);
    assert r[..j + 1][..j] == r[..j] && cap[..j + 1][..j] == cap[..j];
  }

  // ---------------------------------------------------------------------
  // Tightened bounds

  /** The generator's `realMins` and `realMaxs`: each component is at least
      what the other components cannot absorb at their maxima and at most
      what is left when the others sit at their minima. */
  method TightenBounds(mins: seq<int>, maxs: seq<int>, total: int) returns (lo: seq<int>, hi: seq<int>)
    requires |mins| == |maxs| && Below(mins, maxs)
    requires Sum(mins) <= total <= Sum(maxs)
    ensures |lo| == |hi| == |mins|
    ensures forall i :: 0 <= i < |mins| ==>
      lo[i] == Max(total - Sum(maxs) + maxs[i], mins[i]) &&
      hi[i] == Min(total - Sum(mins) + mins[i], maxs[i])
    ensures Below(lo, hi) && Sum(lo) <= total <= Sum(hi)
    ensures forall v :: IsFixedSumVector(v, mins, maxs, total) <==> IsFixedSumVector(v, lo, hi, total)
  {
    var remaining := total - Sum(mins);
    lo, hi := mins, maxs;
    var i := 0;
    while i < |mins|
      invariant 0 <= i <= |mins| && |lo| == |hi| == |mins|
      invariant forall t :: 0 <= t < i ==>
        lo[t] == Max(total - Sum(maxs) + maxs[t], mins[t]) &&
        hi[t] == Min(remaining + mins[t], maxs[t])
    {
      // the sum of all maxima but the `i`-th
      var leftOverSum := Sum(maxs[..i]) + Sum(maxs[i + 1..]);
      SumSplit(maxs, i);
      lo := lo[i := Max(total - leftOverSum, mins[i])];
      hi := hi[i := Min(remaining + mins[i], maxs[i])];
      i := i + 1;
    }
    TightOrdered(mins, maxs, total, lo, hi);
    TightLowerSum(mins, maxs, total, lo);
    TightUpperSum(mins, maxs, total, hi);
    TightExact(mins, maxs, total, lo, hi);
  }

  /** The tightened bounds lie inside the given ones. */
  lemma TightOrdered(mins: seq<int>, maxs: seq<int>, total: int, lo: seq<int>, hi: seq<int>)
    requires |mins| == |maxs| && Below(mins, maxs) && Sum(mins) <= total <= Sum(maxs)
    requires |lo| == |hi| == |mins|
    requires forall i :: 0 <= i < |mins| ==>
      lo[i] == Max(total - Sum(maxs) + maxs[i], mins[i]) &&
      hi[i] == Min(total - Sum(mins) + mins[i], maxs[i])
    ensures forall i :: 0 <= i < |mins| ==> mins[i] <= lo[i] <= hi[i] <= maxs[i]
  {
    forall i | 0 <= i < |mins|
      ensures lo[i] <= hi[i]
    {
      SlackBound(maxs, mins, i);
    }
  }

  /** The tightened lower bounds add up to at most `total`. */
  lemma TightLowerSum(mins: seq<int>, maxs: seq<int>, total: int, lo: seq<int>)
    requires |mins| == |maxs| == |lo| && Sum(mins) <= total
    requires forall i :: 0 <= i < |mins| ==> lo[i] == Max(total - Sum(maxs) + maxs[i], mins[i])
    requires forall i :: 0 <= i < |mins| ==> lo[i] <= maxs[i]
    ensures Sum(lo) <= total
  {
    if lo != mins {
      var i := FirstDifference(lo, mins);
      SlackBound(maxs, lo, i);
    }
  }

  /** The tightened upper bounds add up to at least `total`. */
  lemma TightUpperSum(mins: seq<int>, maxs: seq<int>, total: int, hi: seq<int>)
    requires |mins| == |maxs| == |hi| && total <= Sum(maxs)
    requires forall i :: 0 <= i < |mins| ==> hi[i] == Min(total - Sum(mins) + mins[i], maxs[i])
    requires forall i :: 0 <= i < |mins| ==> mins[i] <= hi[i]
    ensures total <= Sum(hi)
  {
    if hi != maxs {
      var i := FirstDifference(hi, maxs);
      SlackBound(hi, mins, i);
    }
  }

  /** Tightening loses no vector: the admissible vectors are the same under
      both pairs of bounds. */
  lemma TightExact(mins: seq<int>, maxs: seq<int>, total: int, lo: seq<int>, hi: seq<int>)
    requires |mins| == |maxs| && Below(mins, maxs)
    requires |lo| == |hi| == |mins|
    requires forall i :: 0 <= i < |mins| ==>
      lo[i] == Max(total - Sum(maxs) + maxs[i], mins[i]) &&
      hi[i] == Min(total - Sum(mins) + mins[i], maxs[i])
    requires forall i :: 0 <= i < |mins| ==> mins[i] <= lo[i] <= hi[i] <= maxs[i]
    ensures forall v :: IsFixedSumVector(v, mins, maxs, total) <==> IsFixedSumVector(v, lo, hi, total)
  {
    forall v | IsFixedSumVector(v, mins, maxs, total)
      ensures Within(v, lo, hi)
    {
      forall i | 0 <= i < |v|
        ensures lo[i] <= v[i] <= hi[i]
      {
        SlackBound(maxs, v, i);
        SlackBound(v, mins, i);
      }
    }
  }

  // ---------------------------------------------------------------------
  // From one vector to the next

  /** `hi` with its last component one larger: during the search the last
      component may run one past its maximum, as in the generator. */
  function Raised(hi: seq<int>): seq<int>
    requires hi != []
  {
    hi[|hi| - 1 := hi[|hi| - 1] + 1]
  }

  /** No admissible vector after `y` agrees with `y` on its first `q`
      components. */
  ghost predicate NoneAbove(y: seq<int>, lo: seq<int>, hi: seq<int>, total: int, q: int)
    requires 0 <= q <= |y| == |lo|
  {
    forall z {:trigger LexLess(y, z)} :: IsFixedSumVector(z, lo, hi, total) && z[..q] == y[..q] ==> !LexLess(y, z)
  }

  /** The state of the inner loop of the generator at `pos`: components up
      to `pos` are still those of `y`, and the tail after `pos` holds its
      `d` units above the minima filled from the right, with the last
      component allowed one past its maximum. */
  ghost predicate Searching(y: seq<int>, lo: seq<int>, hi: seq<int>, pos: int, values: seq<int>, d: int)
  {
    |y| == |lo| == |hi| == |values| && 0 <= pos < |y| - 1 &&
    values[..pos + 1] == y[..pos + 1] &&
    d == Sum(y[pos + 1..]) - Sum(lo[pos + 1..]) &&
    values[pos + 1..] == AddFromRight(lo[pos + 1..], Raised(hi)[pos + 1..], d)
  }

  /** Facts about the tail of an admissible vector. */
  lemma TailRoom(y: seq<int>, lo: seq<int>, hi: seq<int>, q: int)
    requires Within(y, lo, hi) && 0 <= q < |y|
    ensures Within(y[q..], lo[q..], hi[q..]) && Below(lo[q..], Raised(hi)[q..])
    ensures Sum(lo[q..]) <= Sum(y[q..]) <= Sum(hi[q..])
    ensures Sum(Raised(hi)[q..]) == Sum(hi[q..]) + 1
  {
    var k := |hi| - 1;
    SumMonotone(lo[q..], y[q..]);
    SumMonotone(y[q..], hi[q..]);
    assert Raised(hi)[q..] == hi[q..][k - q := hi[k] + 1];
    SumUpdate(hi[q..], k - q, 1);
  }

  lemma SearchStart(y: seq<int>, lo: seq<int>, hi: seq<int>, total: int)
    requires IsFixedSumVector(y, lo, hi, total) && |y| >= 2
    ensures Searching(y, lo, hi, |y| - 2, y, y[|y| - 1] - lo[|y| - 1])
    ensures NoneAbove(y, lo, hi, total, |y| - 1)
  {
    var k := |y| - 1;
    assert y[k..] == [y[k]] && lo[k..] == [lo[k]] && Raised(hi)[k..] == [hi[k] + 1];
    assert [lo[k]][..0] == [];
    assert AddFromRight([lo[k]], [hi[k] + 1], y[k] - lo[k]) == [y[k]];
    assert y == y[..k + 1] + y[k + 1..];
    forall z | IsFixedSumVector(z, lo, hi, total) && z[..k] == y[..k]
      ensures !LexLess(y, z)
    {
      SumLast(z);
      SumLast(y);
      assert z == z[..k] + [z[k]] && y == y[..k] + [y[k]];
      LexAsymmetric(y, y);
    }
  }

  /** The generator's test `values[-1] < realMins[-1]` after moving a unit to
      `pos` fails exactly when the tail has a unit to give. */
  lemma SearchTest(y: seq<int>, lo: seq<int>, hi: seq<int>, pos: int, values: seq<int>, d: int)
    requires Within(y, lo, hi) && Searching(y, lo, hi, pos, values, d)
    ensures var k := |y| - 1;
            values[k] - 1 < lo[k] <==> d == 0
    ensures d >= 1 ==>
      var k := |y| - 1;
      values[pos := values[pos] + 1][k := values[k] - 1]
      == y[..pos] + [y[pos] + 1] + AddFromRight(lo[pos + 1..], hi[pos + 1..], d - 1)
  {
    var k := |y| - 1;
    var m := k - pos - 1;
    var lo', hi' := lo[pos + 1..], hi[pos + 1..];
    var t := values[pos + 1..];
    TailBounds(y, lo, hi, pos + 1);
    RaisedTail(hi, pos + 1);
    assert values == y[..pos + 1] + t;
    assert values[k] == t[m] && lo[k] == lo'[m];
    if d >= 1 {
      AddFromRightRaisedLast(lo', hi', d, m);
      TailSurgery(values, y, pos, t, m);
    }
  }

  /** The tail of the raised bounds is the raised tail of the bounds. */
  lemma RaisedTail(hi: seq<int>, q: int)
    requires 0 <= q < |hi|
    ensures Raised(hi)[q..] == hi[q..][|hi| - 1 - q := hi[q..][|hi| - 1 - q] + 1]
  {
  }

  /** Raising `pos` and lowering the last component of a vector made of a
      head and a tail. */
  lemma TailSurgery(values: seq<int>, y: seq<int>, pos: int, t: seq<int>, m: int)
    requires 0 <= pos < |y| && |values| == |y| && values == y[..pos + 1] + t && m == |t| - 1 >= 0
    ensures values[pos := values[pos] + 1][|y| - 1 := values[|y| - 1] - 1]
         == y[..pos] + [y[pos] + 1] + t[m := t[m] - 1]
  {
    assert y[..pos + 1] == y[..pos] + [y[pos]];
  }

  /** When the move succeeds, the result is the next admissible vector. */
  lemma SearchSucceeds(y: seq<int>, lo: seq<int>, hi: seq<int>, total: int, pos: int, next: seq<int>, d: int)
    requires IsFixedSumVector(y, lo, hi, total) && Below(lo, hi)
    requires 0 <= pos < |y| - 1 && d == Sum(y[pos + 1..]) - Sum(lo[pos + 1..])
    requires NoneAbove(y, lo, hi, total, pos + 1)
    requires d >= 1 && y[pos] + 1 <= hi[pos]
    requires next == y[..pos] + [y[pos] + 1] + AddFromRight(lo[pos + 1..], hi[pos + 1..], d - 1)
    ensures IsFixedSumVector(next, lo, hi, total) && LexLess(y, next)
    ensures forall z {:trigger LexLess(y, z)} :: IsFixedSumVector(z, lo, hi, total) && LexLess(y, z) ==> LexLe(next, z)
  {
    NextShape(y, lo, hi, total, pos, next, d);
    assert LexAt(y, next, pos);
    forall z | IsFixedSumVector(z, lo, hi, total) && LexLess(y, z)
      ensures LexLe(next, z)
    {
      NextIsLeast(y, lo, hi, total, pos, next, d, z);
    }
  }

  /** The successor built by the inner loop is admissible and agrees with
      `y` before `pos`. */
  lemma NextShape(y: seq<int>, lo: seq<int>, hi: seq<int>, total: int, pos: int, next: seq<int>, d: int)
    requires IsFixedSumVector(y, lo, hi, total) && Below(lo, hi)
    requires 0 <= pos < |y| - 1 && d == Sum(y[pos + 1..]) - Sum(lo[pos + 1..])
    requires d >= 1 && y[pos] + 1 <= hi[pos]
    requires next == y[..pos] + [y[pos] + 1] + AddFromRight(lo[pos + 1..], hi[pos + 1..], d - 1)
    ensures IsFixedSumVector(next, lo, hi, total)
    ensures |next| == |y| && next[..pos] == y[..pos] && next[pos] == y[pos] + 1
    ensures next[pos + 1..] == AddFromRight(lo[pos + 1..], hi[pos + 1..], d - 1)
  {
    var lo', hi' := lo[pos + 1..], hi[pos + 1..];
    var f := AddFromRight(lo', hi', d - 1);
    TailBounds(y, lo, hi, pos + 1);
    AddFromRightBounds(lo', hi', d - 1);
    NextSum(y, lo, pos, d, f);
    NextWithin(y, lo, hi, pos, f);
    NextParts(y, pos, f);
  }

  /** The tail parts of a vector within the bounds. */
  lemma TailBounds(y: seq<int>, lo: seq<int>, hi: seq<int>, q: int)
    requires Within(y, lo, hi) && 0 <= q <= |y|
    ensures Below(lo[q..], hi[q..]) && Sum(lo[q..]) <= Sum(y[q..]) <= Sum(hi[q..])
  {
    assert Within(y[q..], lo[q..], hi[q..]);
    WithinOrdered(y[q..], lo[q..], hi[q..]);
    WithinSums(y[q..], lo[q..], hi[q..]);
  }

  /** Moving one unit from the tail to `pos` keeps the sum. */
  lemma NextSum(y: seq<int>, lo: seq<int>, pos: int, d: int, f: seq<int>)
    requires |y| == |lo| && 0 <= pos < |y| - 1
    requires d == Sum(y[pos + 1..]) - Sum(lo[pos + 1..]) && Sum(f) == Sum(lo[pos + 1..]) + (d - 1)
    ensures Sum(y[..pos] + [y[pos] + 1] + f) == Sum(y)
  {
    SumAppend(y[..pos] + [y[pos] + 1], f);
    SumAppend(y[..pos], [y[pos] + 1]);
    SumSplit(y, pos);
  }

  /** Raising `pos` within its bound and refilling the tail within the
      bounds stays within the bounds. */
  lemma NextWithin(y: seq<int>, lo: seq<int>, hi: seq<int>, pos: int, f: seq<int>)
    requires Within(y, lo, hi) && 0 <= pos < |y| - 1 && y[pos] + 1 <= hi[pos]
    requires Within(f, lo[pos + 1..], hi[pos + 1..])
    ensures Within(y[..pos] + [y[pos] + 1] + f, lo, hi)
  {
    var head := y[..pos] + [y[pos] + 1];
    forall i | 0 <= i < pos + 1
      ensures lo[..pos + 1][i] <= head[i] <= hi[..pos + 1][i]
    {
      if i < pos {
        assert head[i] == y[i];
      }
    }
    WithinJoin(head, f, lo, hi, pos + 1);
  }

  /** The parts of the raised vector. */
  lemma NextParts(y: seq<int>, pos: int, f: seq<int>)
    requires 0 <= pos < |y| - 1 && |f| == |y| - pos - 1
    ensures var next := y[..pos] + [y[pos] + 1] + f;
            |next| == |y| && next[..pos] == y[..pos] && next[pos] == y[pos] + 1 && next[pos + 1..] == f
  {
    var next := y[..pos] + [y[pos] + 1] + f;
    assert next[..pos] == y[..pos];
    assert next[pos + 1..] == f;
  }

  /** Two pieces within the bounds on either side of `j` join to a vector
      within the bounds. */
  lemma WithinJoin(a: seq<int>, b: seq<int>, lo: seq<int>, hi: seq<int>, j: int)
    requires 0 <= j <= |lo| == |hi|
    requires Within(a, lo[..j], hi[..j]) && Within(b, lo[j..], hi[j..])
    ensures Within(a + b, lo, hi)
  {
    forall i | 0 <= i < |a + b|
      ensures lo[i] <= (a + b)[i] <= hi[i]
    {
      if i < j {
        assert lo[..j][i] == lo[i] && hi[..j][i] == hi[i];
      } else {
        assert lo[j..][i - j] == lo[i] && hi[j..][i - j] == hi[i];
      }
    }
  }

  lemma NextIsLeast(y: seq<int>, lo: seq<int>, hi: seq<int>, total: int, pos: int, next: seq<int>, d: int, z: seq<int>)
    requires IsFixedSumVector(y, lo, hi, total) && Below(lo, hi)
    requires 0 <= pos < |y| - 1 && d == Sum(y[pos + 1..]) - Sum(lo[pos + 1..])
    requires NoneAbove(y, lo, hi, total, pos + 1)
    requires d >= 1
    requires |next| == |y| && next[..pos] == y[..pos] && next[pos] == y[pos] + 1
    requires next[pos + 1..] == AddFromRight(lo[pos + 1..], hi[pos + 1..], d - 1)
    requires IsFixedSumVector(z, lo, hi, total) && LexLess(y, z)
    ensures LexLe(next, z)
  {
    var dz :| LexAt(y, z, dz);
    if dz > pos {
    } else if dz < pos {
      assert next[..pos][..dz] == next[..dz] && y[..pos][..dz] == y[..dz];
      assert next[dz] == next[..pos][dz];
      assert LexAt(next, z, dz);
    } else if z[pos] > next[pos] {
      assert LexAt(next, z, pos);
    } else {
      SameHeadLeast(y, lo, hi, total, pos, next, d, z);
    }
  }

  /** An admissible vector that agrees with the next one up to `pos` comes
      no earlier, because the tail of the next one is the smallest filling. */
  lemma SameHeadLeast(y: seq<int>, lo: seq<int>, hi: seq<int>, total: int, pos: int, next: seq<int>, d: int, z: seq<int>)
    requires IsFixedSumVector(y, lo, hi, total) && Below(lo, hi)
    requires 0 <= pos < |y| - 1 && d == Sum(y[pos + 1..]) - Sum(lo[pos + 1..])
    requires d >= 1
    requires |next| == |y| && next[..pos] == y[..pos] && next[pos] == y[pos] + 1
    requires next[pos + 1..] == AddFromRight(lo[pos + 1..], hi[pos + 1..], d - 1)
    requires IsFixedSumVector(z, lo, hi, total) && z[..pos] == y[..pos] && z[pos] == next[pos]
    ensures LexLe(next, z)
  {
    var lo', hi' := lo[pos + 1..], hi[pos + 1..];
    var zt := z[pos + 1..];
    assert next[..pos + 1] == z[..pos + 1] by {
      assert z[..pos + 1] == z[..pos] + [z[pos]];
      assert next[..pos + 1] == next[..pos] + [next[pos]];
    }
    SameHeadSum(y, z, pos);
    WithinTail(z, lo, hi, pos + 1);
    AddFromRightLeast(lo', hi', d - 1, zt);
    LexPrefixed(z[..pos + 1], next[pos + 1..], zt);
    Rejoin(next, pos + 1);
    Rejoin(z, pos + 1);
  }

  lemma Rejoin(s: seq<int>, k: int)
    requires 0 <= k <= |s|
    ensures s[..k] + s[k..] == s
  {
  }

  /** The tail of a vector within bounds is within the tails of the bounds. */
  lemma WithinTail(v: seq<int>, lo: seq<int>, hi: seq<int>, k: int)
    requires Within(v, lo, hi) && 0 <= k <= |v|
    ensures Within(v[k..], lo[k..], hi[k..])
  {
    forall i | 0 <= i < |v| - k ensures lo[k..][i] <= v[k..][i] <= hi[k..][i] {
      assert v[k..][i] == v[k + i];
    }
  }

  /** Two vectors with the same sum that agree before `pos`, the second one
      unit higher at `pos`: the tail of the second holds one unit less. */
  lemma SameHeadSum(y: seq<int>, z: seq<int>, pos: int)
    requires |y| == |z| && 0 <= pos < |y| && z[..pos] == y[..pos] && z[pos] == y[pos] + 1
    requires Sum(z) == Sum(y)
    ensures Sum(z[pos + 1..]) == Sum(y[pos + 1..]) - 1
  {
    SumSplit(y, pos);
    SumSplit(z, pos);
  }

  /** When the move fails, no admissible vector after `y` agrees with it up
      to `pos`. */
  lemma SearchFails(y: seq<int>, lo: seq<int>, hi: seq<int>, total: int, pos: int, d: int)
    requires IsFixedSumVector(y, lo, hi, total)
    requires 0 <= pos < |y| - 1 && d == Sum(y[pos + 1..]) - Sum(lo[pos + 1..])
    requires NoneAbove(y, lo, hi, total, pos + 1)
    requires d == 0 || y[pos] + 1 > hi[pos]
    ensures NoneAbove(y, lo, hi, total, pos)
  {
    forall z | IsFixedSumVector(z, lo, hi, total) && z[..pos] == y[..pos]
      ensures !LexLess(y, z)
    {
      FailsFor(y, lo, hi, total, pos, d, z);
    }
  }

  lemma FailsFor(y: seq<int>, lo: seq<int>, hi: seq<int>, total: int, pos: int, d: int, z: seq<int>)
    requires IsFixedSumVector(y, lo, hi, total)
    requires 0 <= pos < |y| - 1 && d == Sum(y[pos + 1..]) - Sum(lo[pos + 1..])
    requires NoneAbove(y, lo, hi, total, pos + 1)
    requires d == 0 || y[pos] + 1 > hi[pos]
    requires IsFixedSumVector(z, lo, hi, total) && z[..pos] == y[..pos]
    ensures !LexLess(y, z)
  {
    if d == 0 && z[pos] > y[pos] {
      HeadHigherSum(y, z, pos);
      TailBounds(z, lo, hi, pos + 1);
    }
  }

  /** Two vectors with the same sum that agree before `pos`, the second one
      higher at `pos`: the tail of the second holds less. */
  lemma HeadHigherSum(y: seq<int>, z: seq<int>, pos: int)
    requires |y| == |z| && 0 <= pos < |y| && z[..pos] == y[..pos] && z[pos] > y[pos]
    requires Sum(z) == Sum(y)
    ensures Sum(z[pos + 1..]) < Sum(y[pos + 1..])
  {
    SumSplit(y, pos);
    SumSplit(z, pos);
  }

  /** The search state written out at `pos` once `pos` is back at its
      minimum: the head part of `y` followed by the tail from `pos` on
      filled from the right. */
  lemma ResetShape(y: seq<int>, lo: seq<int>, hi: seq<int>, pos: int, values: seq<int>, d: int)
    requires Within(y, lo, hi) && Searching(y, lo, hi, pos, values, d) && pos >= 1
    ensures Below(lo[pos..], Raised(hi)[pos..]) && 0 <= d
    ensures d + (y[pos] - lo[pos]) == Sum(y[pos..]) - Sum(lo[pos..])
    ensures Sum(y[pos..]) < Sum(Raised(hi)[pos..])
    ensures values[pos := lo[pos]] == y[..pos] + AddFromRight(lo[pos..], Raised(hi)[pos..], d)
  {
    var hp := Raised(hi);
    var l', h' := lo[pos + 1..], hp[pos + 1..];
    assert Below(lo[pos..], hp[pos..]) && Sum(y[pos..]) < Sum(hp[pos..]) by {
      TailRoom(y, lo, hi, pos);
    }
    assert Below(l', h') && 0 <= d <= Sum(h') - Sum(l') by {
      TailRoom(y, lo, hi, pos + 1);
    }
    assert d + (y[pos] - lo[pos]) == Sum(y[pos..]) - Sum(lo[pos..]) by {
      SumSplit(y, pos);
      SumSplit(lo, pos);
    }
    var f := AddFromRight(l', h', d);
    assert AddFromRight(lo[pos..], hp[pos..], d) == [lo[pos]] + f by {
      assert lo[pos..] == [lo[pos]] + l' && hp[pos..] == [hp[pos]] + h';
      AddFromRightSplit([lo[pos]], [hp[pos]], l', h', d);
    }
    assert values == y[..pos] + [y[pos]] + f by {
      assert values == values[..pos + 1] + values[pos + 1..];
      assert y[..pos + 1] == y[..pos] + [y[pos]];
    }
    ReplaceAt(y[..pos], y[pos], f, lo[pos]);
  }

  /** Replacing the element between two parts of a list. */
  lemma ReplaceAt(a: seq<int>, x: int, c: seq<int>, w: int)
    ensures (a + [x] + c)[|a| := w] == a + ([w] + c)
  {
  }

  /** After the reset the tail from `pos` on has room for the units taken
      from `pos`. */
  lemma ResetRoom(y: seq<int>, lo: seq<int>, hi: seq<int>, pos: int, x: seq<int>, d: int, w: int)
    requires Within(y, lo, hi) && 1 <= pos < |y| && w == y[pos]
    requires Below(lo[pos..], Raised(hi)[pos..]) && 0 <= d
    requires d + (y[pos] - lo[pos]) == Sum(y[pos..]) - Sum(lo[pos..])
    requires Sum(y[pos..]) < Sum(Raised(hi)[pos..])
    requires x == y[..pos] + AddFromRight(lo[pos..], Raised(hi)[pos..], d)
    ensures Below(x, Raised(hi)) && 0 <= w - lo[pos] <= Sum(Raised(hi)) - Sum(x)
  {
    var hp := Raised(hi);
    var l, h := lo[pos..], hp[pos..];
    var g := AddFromRight(l, h, d);
    assert Below(g, h) && Sum(g) == Sum(l) + d by {
      AddFromRightBounds(l, h, d);
    }
    assert hp == hi[..pos] + h by {
      assert hp == hp[..pos] + h;
    }
    assert Below(y[..pos], hi[..pos]) by {
      PrefixBelow(y, lo, hi, pos);
    }
    BelowJoin(y[..pos], g, hi[..pos], h);
    SumMonotone(y[..pos], hi[..pos]);
    SumAppend(y[..pos], g);
    SumAppend(hi[..pos], h);
  }

  /** Refilling the reset vector with the units taken from `pos` gives the
      search state at `pos - 1`. */
  lemma ResetRefill(y: seq<int>, lo: seq<int>, hi: seq<int>, pos: int, x: seq<int>, d: int, w: int, e: int, v: seq<int>)
    requires |y| == |lo| == |hi| && 1 <= pos < |y| && w == y[pos]
    requires Below(lo[pos..], Raised(hi)[pos..]) && 0 <= d && lo[pos] <= y[pos]
    requires d + (y[pos] - lo[pos]) == Sum(y[pos..]) - Sum(lo[pos..])
    requires Sum(y[pos..]) < Sum(Raised(hi)[pos..])
    requires x == y[..pos] + AddFromRight(lo[pos..], Raised(hi)[pos..], d)
    requires e == w - lo[pos] && v == AddFromRight(x, Raised(hi), e)
    ensures Searching(y, lo, hi, pos - 1, v, d + e)
  {
    assert Below(AddFromRight(lo[pos..], Raised(hi)[pos..], d), Raised(hi)[pos..])
        && Sum(AddFromRight(lo[pos..], Raised(hi)[pos..], d)) == Sum(lo[pos..]) + d by {
      AddFromRightBounds(lo[pos..], Raised(hi)[pos..], d);
    }
    assert Raised(hi) == hi[..pos] + Raised(hi)[pos..] by {
      assert Raised(hi) == Raised(hi)[..pos] + Raised(hi)[pos..];
    }
    assert v == y[..pos] + AddFromRight(lo[pos..], Raised(hi)[pos..], d + e) by {
      AddFromRightSplit(y[..pos], hi[..pos], AddFromRight(lo[pos..], Raised(hi)[pos..], d), Raised(hi)[pos..], e);
      AddFromRightTwice(lo[pos..], Raised(hi)[pos..], d, e);
    }
    assert v[..pos] == y[..pos] && v[pos..] == AddFromRight(lo[pos..], Raised(hi)[pos..], d + e);
    SearchingFromParts(y, lo, hi, pos, v, d + e);
  }

  /** The head part of a vector within the bounds is below the head part of
      the upper bounds. */
  lemma PrefixBelow(y: seq<int>, lo: seq<int>, hi: seq<int>, j: int)
    requires Within(y, lo, hi) && 0 <= j <= |y|
    ensures Below(y[..j], hi[..j])
  {
  }

  /** Joining two vectors below their caps. */
  lemma BelowJoin(a: seq<int>, b: seq<int>, ca: seq<int>, cb: seq<int>)
    requires Below(a, ca) && Below(b, cb)
    ensures Below(a + b, ca + cb)
  {
    forall i | 0 <= i < |a + b|
      ensures (a + b)[i] <= (ca + cb)[i]
    {
      if i >= |a| {
        assert (a + b)[i] == b[i - |a|] && (ca + cb)[i] == cb[i - |a|];
      }
    }
  }

  /** `Searching` at `q - 1` from its parts. */
  lemma SearchingFromParts(y: seq<int>, lo: seq<int>, hi: seq<int>, q: int, v: seq<int>, dd: int)
    requires |v| == |y| == |lo| == |hi| && 1 <= q < |y|
    requires v[..q] == y[..q] && dd == Sum(y[q..]) - Sum(lo[q..])
    requires v[q..] == AddFromRight(lo[q..], Raised(hi)[q..], dd)
    ensures Searching(y, lo, hi, q - 1, v, dd)
  {
  }

  /** The failure branch of the inner loop for `pos >= 1`: reset `pos`,
      refill, and go on one position to the left. */
  method MoveLeft(ghost y: seq<int>, lo: seq<int>, hi: seq<int>, ghost total: int, pos: int, ghost before: seq<int>, ghost d: int, values: seq<int>)
    returns (r: seq<int>, pos': int, ghost d': int)
    requires Within(y, lo, hi) && Searching(y, lo, hi, pos, before, d) && pos >= 1
    requires NoneAbove(y, lo, hi, total, pos)
    requires values == before[pos := before[pos] + 1][|before| - 1 := before[|before| - 1] - 1]
    ensures pos' == pos - 1
    ensures Searching(y, lo, hi, pos', r, d') && NoneAbove(y, lo, hi, total, pos' + 1)
  {
    MovesLeft(y, lo, hi, pos, before, d);
    r := Refill(lo, hi, pos, before, values);
    pos' := pos - 1;
    d' := d + (before[pos] - lo[pos]);
    Renamed(y, lo, hi, total, pos, pos', r, AddFromRight(before[pos := lo[pos]], Raised(hi), before[pos] - lo[pos]), d + (before[pos] - lo[pos]), d');
  }

  /** The search state and the search so far, restated for equal
      arguments. */
  lemma Renamed(y: seq<int>, lo: seq<int>, hi: seq<int>, total: int, pos: int, pos': int, r: seq<int>, s: seq<int>, dd: int, d': int)
    requires Searching(y, lo, hi, pos - 1, s, dd) && NoneAbove(y, lo, hi, total, pos)
    requires pos' == pos - 1 && r == s && d' == dd
    ensures Searching(y, lo, hi, pos', r, d') && NoneAbove(y, lo, hi, total, pos' + 1)
  {
  }

  /** The failure branch of the inner loop: `pos` goes back to its minimum
      and its units go to the last component, which hands on leftwards what
      it cannot hold. */
  method Refill(lo: seq<int>, hi: seq<int>, pos: int, ghost before: seq<int>, values: seq<int>) returns (r: seq<int>)
    requires |before| == |lo| == |hi| && 0 <= pos < |before| - 1
    requires Below(before[pos := lo[pos]], Raised(hi))
    requires 0 <= before[pos] - lo[pos] <= Sum(Raised(hi)) - Sum(before[pos := lo[pos]])
    requires values == before[pos := before[pos] + 1][|before| - 1 := before[|before| - 1] - 1]
    ensures r == AddFromRight(before[pos := lo[pos]], Raised(hi), before[pos] - lo[pos])
  {
    var k := |values| - 1;
    var variableAmount := values[pos] - lo[pos];
    r := values[pos := lo[pos]];
    r := r[k := r[k] + variableAmount];
    ResetMoves(before, pos, lo[pos], values, r);
    r := Spill(r, hi, before[pos := lo[pos]], before[pos] - lo[pos]);
  }

  /** Raising `p` and lowering the last component, then taking `p` to `m` and
      giving its units to the last component, moves the original units above
      `m` from `p` to the last component. */
  lemma ResetMoves(b: seq<int>, p: int, m: int, v: seq<int>, r: seq<int>)
    requires 0 <= p < |b| - 1
    requires v == b[p := b[p] + 1][|b| - 1 := b[|b| - 1] - 1]
    requires r == v[p := m][|v| - 1 := v[p := m][|v| - 1] + (v[p] - m)]
    ensures var x := b[p := m]; r == x[|x| - 1 := x[|x| - 1] + (b[p] - m)]
  {
  }

  /** When the search fails at `pos >= 1`, resetting `pos` to its minimum
      and spilling its units from the right is the search state one position
      to the left. */
  lemma MovesLeft(y: seq<int>, lo: seq<int>, hi: seq<int>, pos: int, before: seq<int>, d: int)
    requires Within(y, lo, hi) && Searching(y, lo, hi, pos, before, d) && pos >= 1
    ensures |before| == |lo| == |hi| && 0 <= pos < |before| - 1 && before[pos] == y[pos]
    ensures Below(before[pos := lo[pos]], Raised(hi))
    ensures 0 <= before[pos] - lo[pos] <= Sum(Raised(hi)) - Sum(before[pos := lo[pos]])
    ensures Searching(y, lo, hi, pos - 1, AddFromRight(before[pos := lo[pos]], Raised(hi), before[pos] - lo[pos]), d + (before[pos] - lo[pos]))
  {
    assert before[pos] == y[pos] by {
      assert before[..pos + 1][pos] == y[..pos + 1][pos];
    }
    ResetShape(y, lo, hi, pos, before, d);
    ResetRoom(y, lo, hi, pos, before[pos := lo[pos]], d, before[pos]);
    ResetRefill(y, lo, hi, pos, before[pos := lo[pos]], d, before[pos], before[pos] - lo[pos],
      AddFromRight(before[pos := lo[pos]], Raised(hi), before[pos] - lo[pos]));
  }

  /** The last component, holding `e` units more than in `x`, keeps at most
      one past its maximum and the rest goes leftwards, filling from the
      right. */
  method Spill(v: seq<int>, hi: seq<int>, ghost x: seq<int>, ghost e: int) returns (r: seq<int>)
    requires |x| == |hi| >= 1 && Below(x, Raised(hi)) && 0 <= e <= Sum(Raised(hi)) - Sum(x)
    requires v == x[|x| - 1 := x[|x| - 1] + e]
    ensures r == AddFromRight(x, Raised(hi), e)
  {
    var k := |v| - 1;
    ghost var hp := Raised(hi);
    AddFromRightUnfold(x, hp, e);
    r := v;
    if v[k] > hi[k] {
      var remaining := v[k] - hi[k] - 1;
      var capped := v[k := hi[k] + 1];
      assert capped[..k] == x[..k] && hp[..k] == hi[..k] && hp[k] == hi[k] + 1;
      assert forall i :: 0 <= i <= k - 1 ==> capped[i] <= hi[i] by {
        forall i | 0 <= i <= k - 1
          ensures capped[i] <= hi[i]
        {
          assert capped[i] == x[i] && hp[i] == hi[i];
        }
      }
      assert remaining <= Sum(hi[..k]) - Sum(capped[..k]) by {
        SumSplit(x, k);
        SumSplit(hp, k);
      }
      assert capped[k..] == [hi[k] + 1];
      r := Distribute(capped, hi, k - 1, remaining);
    }
  }

  /** The inner loop of the generator: find the last position that can take
      one more unit, raise it, and refill everything after it from the
      right. */
  method NextVector(y: seq<int>, lo: seq<int>, hi: seq<int>, total: int) returns (found: bool, next: seq<int>)
    requires IsFixedSumVector(y, lo, hi, total) && Below(lo, hi) && |y| >= 2
    ensures found ==> IsFixedSumVector(next, lo, hi, total) && LexLess(y, next)
    ensures found ==> forall z {:trigger LexLess(y, z)} :: IsFixedSumVector(z, lo, hi, total) && LexLess(y, z) ==> LexLe(next, z)
    ensures !found ==> forall z {:trigger LexLess(y, z)} :: IsFixedSumVector(z, lo, hi, total) ==> !LexLess(y, z)
  {
    var k := |y| - 1;
    var values := y;
    var pos := k - 1;
    ghost var d := y[k] - lo[k];
    SearchStart(y, lo, hi, total);
    while true
      invariant Searching(y, lo, hi, pos, values, d)
      invariant NoneAbove(y, lo, hi, total, pos + 1)
      decreases pos
    {
      SearchTest(y, lo, hi, pos, values, d);
      assert values[pos] == y[pos] by {
        assert values[..pos + 1][pos] == y[..pos + 1][pos];
      }
      ghost var before := values;
      values := values[pos := values[pos] + 1][|values| - 1 := values[|values| - 1] - 1];
      if values[k] < lo[k] || values[pos] > hi[pos] {
        SearchFails(y, lo, hi, total, pos, d);
        if pos == 0 {
          assert y[..0] == [];
          return false, values;
        }
        values, pos, d := MoveLeft(y, lo, hi, total, pos, before, d, values);
      } else {
        SearchSucceeds(y, lo, hi, total, pos, values, d);
        return true, values;
      }
    }
  }

  // ---------------------------------------------------------------------
  // The generator

  /** The offsets of `v` above `lo`, read as digits of a termination
      measure. */
  function Offsets(v: seq<int>, lo: seq<int>): seq<int>
    requires |v| == |lo|
  {
    seq(|v|, i requires 0 <= i < |v| => v[i] - lo[i])
  }

  /** The termination measure of the generator. */
  ghost function Measure(v: seq<int>, lo: seq<int>, hi: seq<int>): int
    requires |v| == |lo|
  {
    EncLex(Offsets(v, lo), Sum(hi) - Sum(lo) + 1)
  }

  /** The offsets of a vector inside the bounds are digits in base
      `Sum(hi) - Sum(lo) + 1`. */
  lemma MeasureBound(a: seq<int>, lo: seq<int>, hi: seq<int>)
    requires Within(a, lo, hi)
    ensures Digits(Offsets(a, lo), Sum(hi) - Sum(lo) + 1)
    ensures 0 <= EncLex(Offsets(a, lo), Sum(hi) - Sum(lo) + 1) < Pow(Sum(hi) - Sum(lo) + 1, |a|)
  {
    OffsetDigits(a, lo, hi);
    EncLexBound(Offsets(a, lo), Sum(hi) - Sum(lo) + 1);
  }

  /** Each offset of an admissible vector from its minima is below the
      base of the measure. */
  lemma OffsetDigits(a: seq<int>, lo: seq<int>, hi: seq<int>)
    requires Within(a, lo, hi)
    ensures Sum(lo) <= Sum(hi) && Digits(Offsets(a, lo), Sum(hi) - Sum(lo) + 1)
  {
    var off := Offsets(a, lo);
    WithinOrdered(a, lo, hi);
    SumMonotone(lo, hi);
    forall i | 0 <= i < |off|
      ensures 0 <= off[i] < Sum(hi) - Sum(lo) + 1
    {
      SlackBound(hi, lo, i);
    }
  }

  /** A lexicographically later vector has a larger measure. */
  lemma MeasureIncreases(a: seq<int>, b: seq<int>, lo: seq<int>, hi: seq<int>)
    requires Within(a, lo, hi) && Within(b, lo, hi) && LexLess(a, b)
    ensures EncLex(Offsets(a, lo), Sum(hi) - Sum(lo) + 1) < EncLex(Offsets(b, lo), Sum(hi) - Sum(lo) + 1)
  {
    MeasureBound(a, lo, hi);
    MeasureBound(b, lo, hi);
    var d :| LexAt(a, b, d);
    assert Offsets(a, lo)[..d] == Offsets(b, lo)[..d] by {
      forall i | 0 <= i < d
        ensures a[i] == b[i]
      {
        assert a[..d][i] == b[..d][i];
      }
    }
    EncLexIncreases(Offsets(a, lo), Offsets(b, lo), Sum(hi) - Sum(lo) + 1, d);
  }

  /** What the outer loop of the generator keeps: everything yielded so far
      is admissible and increasing, comes before the current vector, and
      every admissible vector before the current one has been yielded. */
  ghost predicate YieldedBelow(vs: seq<seq<int>>, values: seq<int>, lo: seq<int>, hi: seq<int>, total: int) {
    (forall v :: v in vs ==> IsFixedSumVector(v, lo, hi, total)) &&
    (forall i, j :: 0 <= i < j < |vs| ==> LexLess(vs[i], vs[j])) &&
    (forall i :: 0 <= i < |vs| ==> LexLess(vs[i], values)) &&
    (forall z {:trigger LexLess(z, values)} :: IsFixedSumVector(z, lo, hi, total) && LexLess(z, values) ==> z in vs)
  }

  lemma YieldStep(vs: seq<seq<int>>, values: seq<int>, next: seq<int>, lo: seq<int>, hi: seq<int>, total: int)
    requires YieldedBelow(vs, values, lo, hi, total) && IsFixedSumVector(values, lo, hi, total)
    requires IsFixedSumVector(next, lo, hi, total) && LexLess(values, next)
    requires forall z {:trigger LexLess(values, z)} :: IsFixedSumVector(z, lo, hi, total) && LexLess(values, z) ==> LexLe(next, z)
    ensures YieldedBelow(vs + [values], next, lo, hi, total)
  {
    var vs' := vs + [values];
    forall i | 0 <= i < |vs'|
      ensures LexLess(vs'[i], next)
    {
      if i < |vs| {
        LexTrans(vs[i], values, next);
      }
    }
    forall z | IsFixedSumVector(z, lo, hi, total) && LexLess(z, next)
      ensures z in vs'
    {
      LexTotal(z, values);
      if LexLess(values, z) {
        LexAsymmetric(z, next);
      }
    }
  }

  lemma YieldLast(vs: seq<seq<int>>, values: seq<int>, lo: seq<int>, hi: seq<int>, total: int)
    requires YieldedBelow(vs, values, lo, hi, total) && IsFixedSumVector(values, lo, hi, total)
    requires forall z {:trigger LexLess(values, z)} :: IsFixedSumVector(z, lo, hi, total) ==> !LexLess(values, z)
    ensures forall v :: v in vs + [values] ==> IsFixedSumVector(v, lo, hi, total)
    ensures forall v :: IsFixedSumVector(v, lo, hi, total) ==> v in vs + [values]
    ensures forall i, j :: 0 <= i < j < |vs + [values]| ==> LexLess((vs + [values])[i], (vs + [values])[j])
  {
    forall z | IsFixedSumVector(z, lo, hi, total)
      ensures z in vs + [values]
    {
      LexTotal(z, values);
    }
  }

  /** `fixed_sum_vector_iter`: every vector between `mins` and `maxs` with
      sum `total`, each once, in increasing lexicographic order. */
  method FixedSumVectorIter(mins: seq<int>, maxs: seq<int>, total: int) returns (vs: seq<seq<int>>)
    requires |mins| == |maxs| && Below(mins, maxs)
    ensures forall v :: v in vs ==> IsFixedSumVector(v, mins, maxs, total)
    ensures forall v :: IsFixedSumVector(v, mins, maxs, total) ==> v in vs
    ensures forall i, j :: 0 <= i < j < |vs| ==> LexLess(vs[i], vs[j])
  {
    var minSum, maxSum := Sum(mins), Sum(maxs);
    forall v | IsFixedSumVector(v, mins, maxs, total)
      ensures minSum <= total <= maxSum
    {
      SumMonotone(mins, v);
      SumMonotone(v, maxs);
    }
    if minSum > total || maxSum < total {
      return [];
    }
    var count := |maxs|;
    if count <= 1 {
      if count == 1 {
        OneComponent(mins, maxs, total);
        vs := [[total]];
      } else {
        vs := [[]];
      }
      return;
    }
    var lo, hi := TightenBounds(mins, maxs, total);
    vs := EnumerateTight(lo, hi, total);
  }

  /** With one component the only vector is `[total]`. */
  lemma OneComponent(mins: seq<int>, maxs: seq<int>, total: int)
    requires |mins| == |maxs| == 1 && Sum(mins) <= total <= Sum(maxs)
    ensures IsFixedSumVector([total], mins, maxs, total)
    ensures forall v :: IsFixedSumVector(v, mins, maxs, total) ==> v == [total]
  {
    forall v | IsFixedSumVector(v, mins, maxs, total)
      ensures v == [total]
    {
      assert v[1..] == [] && Sum(v) == v[0] + Sum(v[1..]);
      assert v == [v[0]];
    }
    assert mins[1..] == [] && maxs[1..] == [] && [total][1..] == [];
    assert Sum(mins) == mins[0] + Sum(mins[1..]) && Sum(maxs) == maxs[0] + Sum(maxs[1..]);
    assert Sum([total]) == total + Sum([total][1..]);
  }

  /** The generator once the bounds are tightened: the first vector is the
      lower bounds filled from the right, and each next one comes from
      `NextVector`. */
  method EnumerateTight(lo: seq<int>, hi: seq<int>, total: int) returns (vs: seq<seq<int>>)
    requires Below(lo, hi) && |lo| >= 2 && Sum(lo) <= total <= Sum(hi)
    ensures forall v :: v in vs ==> IsFixedSumVector(v, lo, hi, total)
    ensures forall v :: IsFixedSumVector(v, lo, hi, total) ==> v in vs
    ensures forall i, j :: 0 <= i < j < |vs| ==> LexLess(vs[i], vs[j])
  {
    var count := |lo|;
    var remaining := total - Sum(lo);
    if remaining == 0 {
      OnlyLowest(lo, hi, total);
      return [lo];
    }
    assert lo[..count] == lo && hi[..count] == hi;
    var values := Distribute(lo, hi, count - 1, remaining);
    assert lo[..count] == lo && hi[..count] == hi;
    FirstIsLeast(lo, hi, total, values);
    vs := [];
    ghost var bound := Pow(Sum(hi) - Sum(lo) + 1, count);
    MeasureBound(values, lo, hi);
    while true
      invariant IsFixedSumVector(values, lo, hi, total)
      invariant YieldedBelow(vs, values, lo, hi, total)
      invariant Measure(values, lo, hi) < bound
      decreases bound - Measure(values, lo, hi)
    {
      var found, next := NextVector(values, lo, hi, total);
      if !found {
        YieldLast(vs, values, lo, hi, total);
        return vs + [values];
      }
      TightStep(vs, values, next, lo, hi, total);
      vs := vs + [values];
      values := next;
    }
  }

  /** With `total == Sum(lo)` the lower bounds are the only vector. */
  lemma OnlyLowest(lo: seq<int>, hi: seq<int>, total: int)
    requires Below(lo, hi) && total == Sum(lo)
    ensures IsFixedSumVector(lo, lo, hi, total)
    ensures forall v :: IsFixedSumVector(v, lo, hi, total) ==> v == lo
  {
    forall v | IsFixedSumVector(v, lo, hi, total)
      ensures v == lo
    {
      forall i | 0 <= i < |v|
        ensures v[i] == lo[i]
      {
        SlackBound(v, lo, i);
      }
    }
  }

  /** A step of the generator: `values` is yielded, `next` takes its place,
      and the measure grows within its bound. */
  lemma TightStep(vs: seq<seq<int>>, values: seq<int>, next: seq<int>, lo: seq<int>, hi: seq<int>, total: int)
    requires YieldedBelow(vs, values, lo, hi, total) && IsFixedSumVector(values, lo, hi, total)
    requires IsFixedSumVector(next, lo, hi, total) && LexLess(values, next)
    requires forall z {:trigger LexLess(values, z)} :: IsFixedSumVector(z, lo, hi, total) && LexLess(values, z) ==> LexLe(next, z)
    ensures YieldedBelow(vs + [values], next, lo, hi, total)
    ensures 0 <= Measure(values, lo, hi) < Measure(next, lo, hi) < Pow(Sum(hi) - Sum(lo) + 1, |lo|)
  {
    MeasureIncreases(values, next, lo, hi);
    MeasureBound(values, lo, hi);
    MeasureBound(next, lo, hi);
    YieldStep(vs, values, next, lo, hi, total);
  }

  /** The lower bounds filled from the right are the first vector. */
  lemma FirstIsLeast(lo: seq<int>, hi: seq<int>, total: int, first: seq<int>)
    requires Below(lo, hi) && Sum(lo) <= total <= Sum(hi)
    requires first == AddFromRight(lo, hi, total - Sum(lo)) + lo[|lo|..]
    ensures IsFixedSumVector(first, lo, hi, total)
    ensures YieldedBelow([], first, lo, hi, total)
  {
    assert lo[|lo|..] == [];
    assert first == AddFromRight(lo, hi, total - Sum(lo));
    AddFromRightBounds(lo, hi, total - Sum(lo));
    forall z | IsFixedSumVector(z, lo, hi, total)
      ensures !LexLess(z, first)
    {
      AddFromRightLeast(lo, hi, total - Sum(lo), z);
      LexAsymmetric(z, first);
    }
  }
}
