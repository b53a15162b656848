/** `commutative_partition_iter` (patternmatcher/utils.py): every way of
    distributing a multiset of values over a number of lists whose sizes are
    bounded below and above, where the order inside a list does not matter.
    The generator combines one fixed-sum vector per distinct value (how many
    copies of the value go into each list) and keeps the combinations whose
    list sizes are within the bounds. */
module CommutativePartitions {
  import opened Sequences
  import opened Positional
  import opened FixedSum
  import opened Partitions
  import opened MultisetPartitions

  // ---------------------------------------------------------------------
  // What a partition is

  /** The union of the lists of `ps` as a multiset. */
  ghost function UnionAll(ps: seq<seq<int>>): multiset<int> {
    if ps == [] then multiset{} else multiset(ps[0]) + UnionAll(ps[1..])
  }

  /** `p` has one list per bound, its lists together hold exactly `values`,
      and list `j` has between `minv[j]` and `maxv[j]` elements. */
  ghost predicate IsCommutativePartition(values: seq<int>, minv: seq<int>, maxv: seq<int>, p: seq<seq<int>>) {
    |p| == |minv| == |maxv| && UnionAll(p) == multiset(values) &&
    forall j :: 0 <= j < |p| ==> minv[j] <= |p[j]| <= maxv[j]
  }

  /** Two tuples of lists that are equal when order inside a list is
      ignored. */
  ghost predicate SameLists(p: seq<seq<int>>, q: seq<seq<int>>) {
    |p| == |q| && forall j :: 0 <= j < |p| ==> multiset(p[j]) == multiset(q[j])
  }

  /** `vs` holds exactly the fixed-sum vectors for the bounds and the total. */
  ghost predicate Enumerates(vs: seq<seq<int>>, mins: seq<int>, maxs: seq<int>, total: int) {
    forall v :: v in vs <==> IsFixedSumVector(v, mins, maxs, total)
  }

  /** Every vector of `t` has `m` components. */
  predicate Shaped(t: seq<seq<int>>, m: nat) {
    forall i :: 0 <= i < |t| ==> |t[i]| == m
  }

  /** Every vector of `t` has `m` components, none of them negative. */
  predicate Counting(t: seq<seq<int>>, m: nat) {
    forall i :: 0 <= i < |t| ==> |t[i]| == m && forall l :: 0 <= l < m ==> t[i][l] >= 0
  }

  predicate StrictlyAscending(s: seq<int>) {
    forall i, j :: 0 <= i < j < |s| ==> s[i] < s[j]
  }

  // ---------------------------------------------------------------------
  // From one vector per value to a tuple of lists

  /** `part` after `partition[j].extend([v] * c)` for every `c = cs[j]`;
      Python's `[v] * c` is empty for `c <= 0`. */
  function AddCopies(part: seq<seq<int>>, v: int, cs: seq<int>): (r: seq<seq<int>>)
    requires |cs| == |part|
    ensures |r| == |part|
  {
    seq(|part|, j requires 0 <= j < |part| => part[j] + Repeat(v, if cs[j] < 0 then 0 else cs[j]))
  }

  /** The tuple of `m` lists built from the vectors `t`, one per value of
      `vals`, in the order of `vals`. */
  function Spread(t: seq<seq<int>>, vals: seq<int>, m: nat): (r: seq<seq<int>>)
    requires |t| == |vals| && Shaped(t, m)
    ensures |r| == m
  {
    if t == [] then seq(m, _ => [])
    else
      var k := |t| - 1;
      AddCopies(Spread(t[..k], vals[..k], m), vals[k], t[k])
  }

  /** Component `j` of every vector of `t`, as `zip(*pvalues)` pairs them. */
  function Column(t: seq<seq<int>>, j: int): (r: seq<int>)
    ensures |r| == |t|
  {
    seq(|t|, i requires 0 <= i < |t| => if 0 <= j < |t[i]| then t[i][j] else 0)
  }

  /** `tuple(map(sum, zip(*pvalues)))` for vectors of length `m`. */
  function ColumnSums(t: seq<seq<int>>, m: nat): (r: seq<int>)
    ensures |r| == m
  {
    seq(m, j requires 0 <= j < m => Sum(Column(t, j)))
  }

  predicate InBounds(sums: seq<int>, minv: seq<int>, maxv: seq<int>) {
    |sums| == |minv| == |maxv| && forall j :: 0 <= j < |sums| ==> minv[j] <= sums[j] <= maxv[j]
  }

  /** The number of copies of `x` in each list of `ps`. */
  function Multiplicities(ps: seq<seq<int>>, x: int): (r: seq<int>)
    ensures |r| == |ps|
  {
    seq(|ps|, j requires 0 <= j < |ps| => multiset(ps[j])[x])
  }

  /** Whether the combination `t` is kept: its list sizes are within the
      bounds. */
  predicate Kept(t: seq<seq<int>>, vals: seq<int>, minv: seq<int>, maxv: seq<int>) {
    |t| == |vals| && Shaped(t, |minv|) && InBounds(ColumnSums(t, |minv|), minv, maxv)
  }

  /** The partitions yielded for the combinations `ts`, in order. */
  function Yields(ts: seq<seq<seq<int>>>, vals: seq<int>, minv: seq<int>, maxv: seq<int>): seq<seq<seq<int>>> {
    if ts == [] then []
    else if Kept(ts[0], vals, minv, maxv) then [Spread(ts[0], vals, |minv|)] + Yields(ts[1..], vals, minv, maxv)
    else Yields(ts[1..], vals, minv, maxv)
  }

  // ---------------------------------------------------------------------
  // Facts about the construction

  lemma {:induction false} RepeatCount(v: int, c: nat, x: int)
    ensures multiset(Repeat(v, c))[x] == if x == v then c else 0
  {
    if c > 0 {
      assert Repeat(v, c) == [v] + Repeat(v, c - 1);
      RepeatCount(v, c - 1, x);
    }
  }

  lemma {:induction false} CountBelowLength(s: seq<int>, x: int)
    ensures multiset(s)[x] <= |s|
  {
    if s != [] {
      assert s == [s[0]] + s[1..];
      CountBelowLength(s[1..], x);
    }
  }

  /** A union counts `x` as often as its lists together. */
  lemma {:induction false} UnionAllCount(ps: seq<seq<int>>, x: int)
    ensures UnionAll(ps)[x] == Sum(Multiplicities(ps, x))
  {
    if ps != [] {
      UnionAllCount(ps[1..], x);
      assert Multiplicities(ps, x)[1..] == Multiplicities(ps[1..], x);
    }
  }

  /** The last vector of `t` adds its copies after those of the others. */
  lemma SpreadLast(t: seq<seq<int>>, vals: seq<int>, m: nat, j: int)
    requires |t| == |vals| > 0 && Counting(t, m) && 0 <= j < m
    ensures Counting(t[..|t| - 1], m)
    ensures Spread(t, vals, m)[j] == Spread(t[..|t| - 1], vals[..|t| - 1], m)[j] + Repeat(vals[|t| - 1], t[|t| - 1][j])
  {
    var k := |t| - 1;
    assert forall i :: 0 <= i < k ==> t[..k][i] == t[i];
  }

  /** Dropping the last value keeps the values ascending, all below the
      dropped one. */
  lemma AscendingPrefix(vals: seq<int>, k: int)
    requires StrictlyAscending(vals) && 0 <= k < |vals|
    ensures StrictlyAscending(vals[..k])
    ensures forall i :: 0 <= i < k ==> vals[..k][i] != vals[k]
  {
    assert forall i :: 0 <= i < k ==> vals[..k][i] == vals[i];
  }

  /** List `j` of `Spread(t, vals, m)` holds `t[i][j]` copies of `vals[i]`. */
  lemma {:induction false} SpreadCountAt(t: seq<seq<int>>, vals: seq<int>, m: nat, j: int, i: int)
    requires |t| == |vals| && StrictlyAscending(vals) && Counting(t, m) && 0 <= j < m && 0 <= i < |t|
    ensures multiset(Spread(t, vals, m)[j])[vals[i]] == t[i][j]
  {
    var k := |t| - 1;
    var t', vals' := t[..k], vals[..k];
    SpreadLast(t, vals, m, j);
    var part, extra := Spread(t', vals', m)[j], Repeat(vals[k], t[k][j]);
    assert multiset(Spread(t, vals, m)[j]) == multiset(part) + multiset(extra);
    RepeatCount(vals[k], t[k][j], vals[i]);
    AscendingPrefix(vals, k);
    if i == k {
      SpreadCountAbsent(t', vals', m, j, vals[k]);
      assert multiset(part)[vals[i]] == 0 && multiset(extra)[vals[i]] == t[i][j];
    } else {
      assert t'[i] == t[i] && vals'[i] == vals[i];
      SpreadCountAt(t', vals', m, j, i);
      assert multiset(part)[vals[i]] == t[i][j] && multiset(extra)[vals[i]] == 0;
    }
  }

  /** A value that is not in `vals` is in no list of `Spread(t, vals, m)`. */
  lemma {:induction false} SpreadCountAbsent(t: seq<seq<int>>, vals: seq<int>, m: nat, j: int, x: int)
    requires |t| == |vals| && Counting(t, m) && 0 <= j < m
    requires forall i :: 0 <= i < |vals| ==> vals[i] != x
    ensures multiset(Spread(t, vals, m)[j])[x] == 0
  {
    if t != [] {
      var k := |t| - 1;
      SpreadLast(t, vals, m, j);
      var part, extra := Spread(t[..k], vals[..k], m)[j], Repeat(vals[k], t[k][j]);
      assert multiset(Spread(t, vals, m)[j]) == multiset(part) + multiset(extra);
      RepeatCount(vals[k], t[k][j], x);
      assert forall i :: 0 <= i < k ==> vals[..k][i] == vals[i];
      SpreadCountAbsent(t[..k], vals[..k], m, j, x);
      assert multiset(part)[x] == 0 && multiset(extra)[x] == 0;
    }
  }

  /** List `j` of `Spread(t, vals, m)` has as many elements as the vectors put
      into it. */
  lemma {:induction false} SpreadLength(t: seq<seq<int>>, vals: seq<int>, m: nat, j: int)
    requires |t| == |vals| && Counting(t, m) && 0 <= j < m
    ensures |Spread(t, vals, m)[j]| == Sum(Column(t, j))
  {
    if t != [] {
      var k := |t| - 1;
      var t' := t[..k];
      SpreadLast(t, vals, m, j);
      SpreadLength(t', vals[..k], m, j);
      assert Column(t, j)[..k] == Column(t', j);
      SumSplit(Column(t, j), k);
    }
  }

  /** The distinct values of a run-length list are ascending. */
  lemma KeysAscending(m: multiset<int>, counts: seq<(int, int)>)
    requires RunLengths(m, counts)
    ensures StrictlyAscending(Keys(counts))
  {
  }

  /** Fixed-sum vectors with minimum zero count copies. */
  lemma FixedSumCounting(t: seq<seq<int>>, maxv: seq<int>, counts: seq<(int, int)>)
    requires |t| == |counts| && forall i :: 0 <= i < |t| ==> IsFixedSumVector(t[i], Repeat(0, |maxv|), maxv, counts[i].1)
    ensures Counting(t, |maxv|) && forall i :: 0 <= i < |t| ==> Sum(t[i]) == counts[i].1
  {
    forall i, l | 0 <= i < |t| && 0 <= l < |maxv| ensures |t[i]| == |maxv| && t[i][l] >= 0 {
      assert Within(t[i], Repeat(0, |maxv|), maxv);
    }
  }

  /** The lists built from one vector per distinct value hold `x` as often as
      the values do. */
  lemma SpreadUnionAt(values: seq<int>, counts: seq<(int, int)>, t: seq<seq<int>>, m: nat, x: int)
    requires RunLengths(multiset(values), counts)
    requires |t| == |counts| && Counting(t, m) && forall i :: 0 <= i < |t| ==> Sum(t[i]) == counts[i].1
    ensures UnionAll(Spread(t, Keys(counts), m))[x] == multiset(values)[x]
  {
    var vals := Keys(counts);
    var s := Spread(t, vals, m);
    KeysAscending(multiset(values), counts);
    UnionAllCount(s, x);
    if i :| 0 <= i < |t| && vals[i] == x {
      forall j | 0 <= j < m ensures Multiplicities(s, x)[j] == t[i][j] {
        SpreadCountAt(t, vals, m, j, i);
      }
      assert Multiplicities(s, x) == t[i];
    } else {
      forall j | 0 <= j < m ensures Multiplicities(s, x)[j] == 0 {
        SpreadCountAbsent(t, vals, m, j, x);
      }
      assert Multiplicities(s, x) == Repeat(0, m);
      assert x !in multiset(values);
    }
  }

  /** The tuple built from one fixed-sum vector per distinct value, with list
      sizes within the bounds, is a partition of the values. */
  lemma SpreadIsPartition(values: seq<int>, counts: seq<(int, int)>, t: seq<seq<int>>, minv: seq<int>, maxv: seq<int>)
    requires RunLengths(multiset(values), counts) && |minv| == |maxv|
    requires |t| == |counts| && forall i :: 0 <= i < |t| ==> IsFixedSumVector(t[i], Repeat(0, |maxv|), maxv, counts[i].1)
    requires Kept(t, Keys(counts), minv, maxv)
    ensures IsCommutativePartition(values, minv, maxv, Spread(t, Keys(counts), |minv|))
  {
    var m, vals := |minv|, Keys(counts);
    var s := Spread(t, vals, m);
    FixedSumCounting(t, maxv, counts);
    forall x ensures UnionAll(s)[x] == multiset(values)[x] {
      SpreadUnionAt(values, counts, t, m, x);
    }
    forall j | 0 <= j < m ensures minv[j] <= |s[j]| <= maxv[j] {
      SpreadLength(t, vals, m, j);
      assert ColumnSums(t, m)[j] == Sum(Column(t, j));
    }
  }

  /** For each distinct value, how many copies of it each list of `p` holds. */
  function Tally(p: seq<seq<int>>, vals: seq<int>): (t: seq<seq<int>>)
    ensures |t| == |vals| && forall i :: 0 <= i < |vals| ==> t[i] == Multiplicities(p, vals[i])
  {
    seq(|vals|, i requires 0 <= i < |vals| => Multiplicities(p, vals[i]))
  }

  /** No list of a partition holds more copies of a value than the values. */
  lemma PartitionCountBound(values: seq<int>, minv: seq<int>, maxv: seq<int>, p: seq<seq<int>>, j: int, x: int)
    requires IsCommutativePartition(values, minv, maxv, p) && 0 <= j < |p|
    ensures multiset(p[j])[x] <= multiset(values)[x]
  {
    UnionAllCount(p, x);
    SumBoundsElement(Multiplicities(p, x), j);
  }

  /** Counting a distinct value over the lists of a partition gives a
      fixed-sum vector for its multiplicity. */
  lemma TallyIsFixedSum(values: seq<int>, counts: seq<(int, int)>, p: seq<seq<int>>, minv: seq<int>, maxv: seq<int>, i: int)
    requires RunLengths(multiset(values), counts) && IsCommutativePartition(values, minv, maxv, p)
    requires 0 <= i < |counts|
    ensures IsFixedSumVector(Multiplicities(p, counts[i].0), Repeat(0, |maxv|), maxv, counts[i].1)
  {
    var v := Multiplicities(p, counts[i].0);
    forall j | 0 <= j < |p| ensures 0 <= v[j] <= maxv[j] {
      CountBelowLength(p[j], counts[i].0);
    }
    UnionAllCount(p, counts[i].0);
  }

  /** List `j` rebuilt from the tally of a partition holds the same values as
      list `j` of the partition. */
  lemma TallySpreadAt(values: seq<int>, counts: seq<(int, int)>, p: seq<seq<int>>, minv: seq<int>, maxv: seq<int>, j: int)
    requires RunLengths(multiset(values), counts) && IsCommutativePartition(values, minv, maxv, p)
    requires Counting(Tally(p, Keys(counts)), |minv|) && 0 <= j < |minv|
    ensures multiset(Spread(Tally(p, Keys(counts)), Keys(counts), |minv|)[j]) == multiset(p[j])
  {
    var vals := Keys(counts);
    var t := Tally(p, vals);
    var s := Spread(t, vals, |minv|);
    KeysAscending(multiset(values), counts);
    forall x ensures multiset(s[j])[x] == multiset(p[j])[x] {
      if i :| 0 <= i < |t| && vals[i] == x {
        SpreadCountAt(t, vals, |minv|, j, i);
      } else {
        SpreadCountAbsent(t, vals, |minv|, j, x);
        PartitionCountBound(values, minv, maxv, p, j, x);
        assert x !in multiset(values);
      }
    }
  }

  /** Every partition of the values is, up to the order inside its lists,
      the tuple built from the vectors that count each value in each list. */
  lemma PartitionIsSpread(values: seq<int>, counts: seq<(int, int)>, p: seq<seq<int>>, minv: seq<int>, maxv: seq<int>)
    requires RunLengths(multiset(values), counts)
    requires IsCommutativePartition(values, minv, maxv, p)
    ensures var t := Tally(p, Keys(counts));
            (forall i :: 0 <= i < |t| ==> IsFixedSumVector(t[i], Repeat(0, |maxv|), maxv, counts[i].1)) &&
            Kept(t, Keys(counts), minv, maxv) && SameLists(Spread(t, Keys(counts), |minv|), p)
  {
    var m, vals := |minv|, Keys(counts);
    var t := Tally(p, vals);
    forall i | 0 <= i < |t| ensures IsFixedSumVector(t[i], Repeat(0, m), maxv, counts[i].1) {
      TallyIsFixedSum(values, counts, p, minv, maxv, i);
    }
    FixedSumCounting(t, maxv, counts);
    var s := Spread(t, vals, m);
    forall j | 0 <= j < m ensures multiset(s[j]) == multiset(p[j]) && minv[j] <= ColumnSums(t, m)[j] <= maxv[j] {
      TallySpreadAt(values, counts, p, minv, maxv, j);
      SpreadLength(t, vals, m, j);
      assert |multiset(s[j])| == |multiset(p[j])|;
    }
  }

  lemma {:induction false} YieldsAppend(a: seq<seq<seq<int>>>, b: seq<seq<seq<int>>>, vals: seq<int>, minv: seq<int>, maxv: seq<int>)
    ensures Yields(a + b, vals, minv, maxv) == Yields(a, vals, minv, maxv) + Yields(b, vals, minv, maxv)
  {
    if a != [] {
      assert (a + b)[0] == a[0] && (a + b)[1..] == a[1..] + b;
      YieldsAppend(a[1..], b, vals, minv, maxv);
      var rest := Yields(a[1..], vals, minv, maxv);
      if Kept(a[0], vals, minv, maxv) {
        var y := [Spread(a[0], vals, |minv|)];
        assert y + (rest + Yields(b, vals, minv, maxv)) == (y + rest) + Yields(b, vals, minv, maxv);
      }
    } else {
      assert a + b == b;
    }
  }

  /** A tuple is yielded exactly for a combination of the right shape whose
      list sizes are within the bounds. */
  lemma {:induction false} YieldsMembership(ts: seq<seq<seq<int>>>, vals: seq<int>, minv: seq<int>, maxv: seq<int>, q: seq<seq<int>>)
    ensures q in Yields(ts, vals, minv, maxv) <==>
            exists t :: t in ts && Kept(t, vals, minv, maxv) && q == Spread(t, vals, |minv|)
  {
    if ts != [] {
      YieldsMembership(ts[1..], vals, minv, maxv, q);
      forall t | t in ts ensures t == ts[0] || t in ts[1..] {
      }
    }
  }

  /** A tuple yielded for the product of the enumerated vectors is a
      partition of the values. */
  lemma YieldedIsPartition(values: seq<int>, counts: seq<(int, int)>, lists: seq<seq<seq<int>>>, minv: seq<int>, maxv: seq<int>, q: seq<seq<int>>)
    requires RunLengths(multiset(values), counts) && |minv| == |maxv|
    requires |lists| == |counts| && forall i :: 0 <= i < |lists| ==> Enumerates(lists[i], Repeat(0, |maxv|), maxv, counts[i].1)
    requires q in Yields(Product(lists), Keys(counts), minv, maxv)
    ensures IsCommutativePartition(values, minv, maxv, q)
  {
    YieldsMembership(Product(lists), Keys(counts), minv, maxv, q);
    var t :| t in Product(lists) && Kept(t, Keys(counts), minv, maxv) && q == Spread(t, Keys(counts), |minv|);
    ProductMembership(lists, t);
    forall i | 0 <= i < |t| ensures IsFixedSumVector(t[i], Repeat(0, |maxv|), maxv, counts[i].1) {
      assert t[i] in lists[i];
    }
    SpreadIsPartition(values, counts, t, minv, maxv);
  }

  /** Everything yielded for the product of the enumerated vectors is a
      partition of the values. */
  lemma YieldsSound(values: seq<int>, counts: seq<(int, int)>, lists: seq<seq<seq<int>>>, minv: seq<int>, maxv: seq<int>)
    requires RunLengths(multiset(values), counts) && |minv| == |maxv|
    requires |lists| == |counts| && forall i :: 0 <= i < |lists| ==> Enumerates(lists[i], Repeat(0, |maxv|), maxv, counts[i].1)
    ensures forall q :: q in Yields(Product(lists), Keys(counts), minv, maxv) ==> IsCommutativePartition(values, minv, maxv, q)
  {
    forall q | q in Yields(Product(lists), Keys(counts), minv, maxv)
      ensures IsCommutativePartition(values, minv, maxv, q)
    {
      YieldedIsPartition(values, counts, lists, minv, maxv, q);
    }
  }

  /** Every partition of the values is yielded for the product of the
      enumerated vectors, up to the order inside its lists. */
  lemma YieldsComplete(values: seq<int>, counts: seq<(int, int)>, lists: seq<seq<seq<int>>>, minv: seq<int>, maxv: seq<int>)
    requires RunLengths(multiset(values), counts)
    requires |lists| == |counts| && forall i :: 0 <= i < |lists| ==> Enumerates(lists[i], Repeat(0, |maxv|), maxv, counts[i].1)
    ensures forall p :: IsCommutativePartition(values, minv, maxv, p) ==>
              exists q :: q in Yields(Product(lists), Keys(counts), minv, maxv) && SameLists(q, p)
  {
    forall p | IsCommutativePartition(values, minv, maxv, p)
      ensures exists q :: q in Yields(Product(lists), Keys(counts), minv, maxv) && SameLists(q, p)
    {
      PartitionIsSpread(values, counts, p, minv, maxv);
      var t := Tally(p, Keys(counts));
      ProductMembership(lists, t);
      var q := Spread(t, Keys(counts), |minv|);
      YieldsMembership(Product(lists), Keys(counts), minv, maxv, q);
    }
  }

  // ---------------------------------------------------------------------
  // The odometer over the lists of vectors

  /** `q` names, for each of the first `|q|` lists of `L`, a vector of it. */
  ghost predicate Positions<T>(L: seq<seq<T>>, q: seq<int>) {
    |q| <= |L| && forall k :: 0 <= k < |q| ==> 0 <= q[k] < |L[k]|
  }

  /** The combinations of `Product(L)`, in order, from the first one that
      starts with the vectors `L[0][q[0]], .., L[k][q[k]]` on; an index past
      the end of its list leaves nothing. */
  function From<T>(L: seq<seq<T>>, q: seq<int>): seq<seq<T>>
    decreases |q|
  {
    if q == [] then Product(L)
    else if L == [] || q[0] < 0 || q[0] >= |L[0]| then []
    else Prepend(L[0][q[0]], From(L[1..], q[1..])) + ProductWith(L[0][q[0] + 1..], Product(L[1..]))
  }

  /** One step of the definition of `From`. */
  lemma FromCons<T>(L: seq<seq<T>>, a: int, r: seq<int>)
    requires L != [] && 0 <= a < |L[0]|
    ensures From(L, [a] + r) == Prepend(L[0][a], From(L[1..], r)) + ProductWith(L[0][a + 1..], Product(L[1..]))
  {
    var q := [a] + r;
    assert q[0] == a;
    assert q[1..] == r;
  }

  /** The position after `p`: its last index moved on by one. */
  function Advance(p: seq<int>): (q: seq<int>)
    requires p != []
    ensures |q| == |p| && q[..|p| - 1] == p[..|p| - 1] && q[|p| - 1] == p[|p| - 1] + 1
  {
    p[..|p| - 1] + [p[|p| - 1] + 1]
  }

  lemma AdvanceCons(a: int, r: seq<int>)
    requires r != []
    ensures Advance([a] + r) == [a] + Advance(r)
  {
    var p := [a] + r;
    assert p[..|p| - 1] == [a] + r[..|r| - 1];
  }

  lemma PositionsTail<T>(L: seq<seq<T>>, q: seq<int>)
    requires Positions(L, q) && q != []
    ensures Positions(L[1..], q[1..])
  {
    assert forall k :: 0 <= k < |q| - 1 ==> q[1..][k] == q[k + 1] && L[1..][k] == L[k + 1];
  }

  lemma PrependAppend<T>(x: T, a: seq<seq<T>>, b: seq<seq<T>>)
    ensures Prepend(x, a + b) == Prepend(x, a) + Prepend(x, b)
  {
  }

  /** The combinations after those starting with vector `a` of the first
      list. */
  lemma FromNext<T>(L: seq<seq<T>>, a: int)
    requires L != [] && 0 <= a < |L[0]|
    ensures From(L, [a + 1]) == ProductWith(L[0][a + 1..], Product(L[1..]))
  {
    var h := L[0][a + 1..];
    if a + 1 < |L[0]| {
      assert h[0] == L[0][a + 1] && h[1..] == L[0][a + 2..];
      assert [a + 1][1..] == [];
    }
  }

  /** Starting the first list at its first vector leaves every combination. */
  lemma FromFirst<T>(L: seq<seq<T>>)
    requires L != []
    ensures From(L, [0]) == Product(L)
  {
    if |L[0]| > 0 {
      FromCons(L, 0, []);
      assert From(L[1..], []) == Product(L[1..]);
      assert L[0][0 + 1..] == L[0][1..];
      assert Product(L) == Prepend(L[0][0], Product(L[1..])) + ProductWith(L[0][1..], Product(L[1..]));
    } else {
      assert From(L, [0]) == [];
    }
  }

  /** Starting the next list at its first vector changes nothing. */
  lemma {:induction false} FromZero<T>(L: seq<seq<T>>, q: seq<int>)
    requires Positions(L, q) && |q| < |L|
    ensures From(L, q + [0]) == From(L, q)
  {
    if q == [] {
      assert q + [0] == [0];
      FromFirst(L);
    } else {
      var a, r := q[0], q[1..];
      assert q == [a] + r && q + [0] == [a] + (r + [0]);
      PositionsTail(L, q);
      FromZero(L[1..], r);
      FromCons(L, a, r);
      FromCons(L, a, r + [0]);
    }
  }

  /** Running past the end of list `|p|` moves on to the next vector of the
      list before it. */
  lemma {:induction false} FromExhausted<T>(L: seq<seq<T>>, p: seq<int>)
    requires Positions(L, p) && 1 <= |p| < |L|
    ensures From(L, p + [|L[|p|]|]) == From(L, Advance(p))
  {
    var x := |L[|p|]|;
    var a, r := p[0], p[1..];
    assert p == [a] + r && p + [x] == [a] + (r + [x]);
    FromCons(L, a, r + [x]);
    if |p| == 1 {
      assert r + [x] == [x] && L[1..][0] == L[1];
      assert From(L[1..], [x]) == [];
      assert Advance(p) == [a + 1];
      FromNext(L, a);
    } else {
      assert L[1..][|r|] == L[|p|];
      PositionsTail(L, p);
      FromExhausted(L[1..], r);
      AdvanceCons(a, r);
      FromCons(L, a, Advance(r));
    }
  }

  /** The vectors named by `p`, one from each list. */
  function Pick<T>(L: seq<seq<T>>, p: seq<int>): (r: seq<T>)
    requires Positions(L, p) && |p| == |L|
    ensures |r| == |L| && forall k :: 0 <= k < |L| ==> r[k] == L[k][p[k]]
  {
    seq(|p|, k requires 0 <= k < |p| => L[k][p[k]])
  }

  lemma PickCons<T>(L: seq<seq<T>>, p: seq<int>)
    requires Positions(L, p) && |p| == |L| >= 1
    ensures Positions(L[1..], p[1..]) && Pick(L, p) == [L[0][p[0]]] + Pick(L[1..], p[1..])
  {
    PositionsTail(L, p);
  }

  /** `FromFull` for a single list. */
  lemma FromFullOne<T>(L: seq<seq<T>>, p: seq<int>)
    requires Positions(L, p) && |p| == |L| == 1
    ensures From(L, p) == [Pick(L, p)] + From(L, Advance(p))
  {
    var a := p[0];
    var x := L[0][a];
    FromNext(L, a);
    assert Advance(p) == [a + 1];
    assert p[1..] == [] && L[1..] == [];
    assert From(L[1..], p[1..]) == [[]];
    assert [x] + [] == [x];
    assert Prepend(x, [[]]) == [[x]];
    assert Pick(L, p) == [x];
  }

  /** The step of `FromFull` from the lists after the first to all the
      lists, on the sequences involved. */
  lemma Regroup<T>(x: T, pick: seq<T>, first: seq<T>, inner: seq<seq<T>>, later: seq<seq<T>>, rest: seq<seq<T>>, whole: seq<seq<T>>, next: seq<seq<T>>)
    requires inner == [first] + later && pick == [x] + first
    requires whole == Prepend(x, inner) + rest && next == Prepend(x, later) + rest
    ensures whole == [pick] + next
  {
    PrependAppend(x, [first], later);
    assert Prepend(x, [first]) == [pick];
  }

  /** With a vector named in every list, the combination of those vectors
      comes first, then those after it. */
  lemma {:induction false} FromFull<T>(L: seq<seq<T>>, p: seq<int>)
    requires Positions(L, p) && |p| == |L| >= 1
    ensures From(L, p) == [Pick(L, p)] + From(L, Advance(p))
  {
    if |p| == 1 {
      FromFullOne(L, p);
    } else {
      var a, r := p[0], p[1..];
      assert p == [a] + r;
      var x := L[0][a];
      var rest := ProductWith(L[0][a + 1..], Product(L[1..]));
      PickCons(L, p);
      FromFull(L[1..], r);
      var first := Pick(L[1..], r);
      var later := From(L[1..], Advance(r));
      var pick := Pick(L, p);
      AdvanceCons(a, r);
      FromCons(L, a, r);
      FromCons(L, a, Advance(r));
      Regroup(x, pick, first, From(L[1..], r), later, rest, From(L, p), From(L, Advance(p)));
    }
  }

  // ---------------------------------------------------------------------
  // The state of the generator

  /** The position of the odometer when list `i` is next: the index of the
      vector in use for each list before `i`, then the number of vectors
      already taken from list `i`. */
  function Position(consumed: seq<int>, i: int): (q: seq<int>)
    requires 0 <= i <= |consumed|
  {
    seq(i, k requires 0 <= k < i => consumed[k] - 1) + (if i < |consumed| then [consumed[i]] else [])
  }

  /** The generator with list `i` next: `consumed[k]` vectors have been taken
      from the iterator of list `k` (none from one not yet created or just
      dropped), and `pvalues[k]` is the last of them for the lists before
      `i`. */
  ghost predicate Odometer(L: seq<seq<seq<int>>>, consumed: seq<int>, pvalues: seq<seq<int>>, i: int) {
    |consumed| == |pvalues| == |L| && 0 <= i <= |L| &&
    (forall k :: 0 <= k < i ==> 1 <= consumed[k] <= |L[k]| && pvalues[k] == L[k][consumed[k] - 1]) &&
    (i < |L| ==> 0 <= consumed[i] <= |L[i]|) &&
    (forall k :: i < k < |L| ==> consumed[k] == 0)
  }

  ghost function MaxLen<T>(L: seq<seq<T>>): (r: nat)
    ensures forall k :: 0 <= k < |L| ==> |L[k]| <= r
  {
    if L == [] then 0
    else
      var t := MaxLen(L[1..]);
      assert forall k :: 1 <= k < |L| ==> L[k] == L[1..][k - 1];
      if |L[0]| > t then |L[0]| else t
  }

  /** A position as `|L|` digits: one more than each index, zero for the
      lists not reached. */
  ghost function Padded(q: seq<int>, n: nat): (d: seq<int>)
    ensures |d| == n
  {
    seq(n, k requires 0 <= k < n => if k < |q| then q[k] + 1 else 0)
  }

  /** How far the odometer has gone: its position read as a number whose
      digits grow from left to right. */
  ghost function Progress(L: seq<seq<seq<int>>>, consumed: seq<int>, i: int): int
    requires 0 <= i <= |consumed|
  {
    EncLex(Padded(Position(consumed, i), |L|), MaxLen(L) + 2)
  }

  /** Every index of `q` is at most the length of its list. */
  ghost predicate Bounded<T>(L: seq<seq<T>>, q: seq<int>) {
    |q| <= |L| && forall k :: 0 <= k < |q| ==> 0 <= q[k] <= |L[k]|
  }

  /** The digits of a bounded position are below the base. */
  lemma PaddedDigits<T>(L: seq<seq<T>>, q: seq<int>, d: seq<int>, b: int)
    requires Bounded(L, q) && d == Padded(q, |L|) && b == MaxLen(L) + 2
    ensures Digits(d, b) && 0 <= EncLex(d, b) < Pow(b, |L|)
  {
    EncLexBound(d, b);
  }

  lemma OdometerBounded(L: seq<seq<seq<int>>>, consumed: seq<int>, pvalues: seq<seq<int>>, i: int)
    requires Odometer(L, consumed, pvalues, i)
    ensures Bounded(L, Position(consumed, i))
  {
    var q := Position(consumed, i);
    forall k | 0 <= k < |q| ensures 0 <= q[k] <= |L[k]| {
      if k < i {
        assert q[k] == consumed[k] - 1;
      } else {
        assert q[k] == consumed[i];
      }
    }
  }

  /** The odometer stays below the number of its combinations of digits. */
  lemma ProgressBound(L: seq<seq<seq<int>>>, consumed: seq<int>, i: int)
    requires 0 <= i <= |consumed| && Bounded(L, Position(consumed, i))
    ensures 0 <= Progress(L, consumed, i) < Pow(MaxLen(L) + 2, |L|)
  {
    PaddedDigits(L, Position(consumed, i), Padded(Position(consumed, i), |L|), MaxLen(L) + 2);
  }

  /** The progress of an odometer is below the number of positions there
      are. */
  lemma OdometerProgress(L: seq<seq<seq<int>>>, consumed: seq<int>, pvalues: seq<seq<int>>, i: int, top: int)
    requires Odometer(L, consumed, pvalues, i) && top == Pow(MaxLen(L) + 2, |L|)
    ensures 0 <= Progress(L, consumed, i) < top
  {
    OdometerBounded(L, consumed, pvalues, i);
    ProgressBound(L, consumed, i);
  }

  /** Moving on at index `j` of the position, after the same indices before
      it, moves the odometer on. */
  lemma PaddedIncrease<T>(L: seq<seq<T>>, q: seq<int>, q': seq<int>, j: int, d: seq<int>, d': seq<int>, b: int)
    requires Bounded(L, q) && Bounded(L, q')
    requires 0 <= j < |q'| && j <= |q| && q[..j] == q'[..j]
    requires j < |q| ==> q[j] < q'[j]
    requires d == Padded(q, |L|) && d' == Padded(q', |L|) && b == MaxLen(L) + 2
    ensures EncLex(d, b) < EncLex(d', b)
  {
    PaddedDigits(L, q, d, b);
    PaddedDigits(L, q', d', b);
    forall k | 0 <= k < j ensures d[k] == d'[k] {
      assert q[k] == q[..j][k] && q'[k] == q'[..j][k];
    }
    assert d[..j] == d'[..j];
    EncLexIncreases(d, d', b, j);
  }

  /** `PaddedIncrease` for two states of the generator. */
  lemma ProgressIncrease(L: seq<seq<seq<int>>>, consumed: seq<int>, i: int, consumed': seq<int>, i': int, j: int)
    requires 0 <= i <= |consumed| && 0 <= i' <= |consumed'|
    requires Bounded(L, Position(consumed, i)) && Bounded(L, Position(consumed', i'))
    requires 0 <= j < |Position(consumed', i')| && j <= |Position(consumed, i)|
    requires Position(consumed, i)[..j] == Position(consumed', i')[..j]
    requires j < |Position(consumed, i)| ==> Position(consumed, i)[j] < Position(consumed', i')[j]
    ensures Progress(L, consumed, i) < Progress(L, consumed', i')
  {
    var q, q' := Position(consumed, i), Position(consumed', i');
    PaddedIncrease(L, q, q', j, Padded(q, |L|), Padded(q', |L|), MaxLen(L) + 2);
  }

  /** The indices in use for the lists before `i`. */
  function InUse(consumed: seq<int>, i: int): (p: seq<int>)
    requires 0 <= i <= |consumed|
    ensures |p| == i && forall k :: 0 <= k < i ==> p[k] == consumed[k] - 1
  {
    seq(i, k requires 0 <= k < i => consumed[k] - 1)
  }

  lemma PositionParts(consumed: seq<int>, i: int)
    requires 0 <= i <= |consumed|
    ensures Position(consumed, i) == InUse(consumed, i) + (if i < |consumed| then [consumed[i]] else [])
  {
  }

  /** With every list reached, the position is the indices in use. */
  lemma PositionAll(consumed: seq<int>)
    requires |consumed| >= 1
    ensures Position(consumed, |consumed|) == InUse(consumed, |consumed|)
    ensures Position(consumed, |consumed| - 1) == Advance(InUse(consumed, |consumed|))
  {
    var n := |consumed|;
    PositionParts(consumed, n);
    PositionParts(consumed, n - 1);
    assert InUse(consumed, n)[..n - 1] == InUse(consumed, n - 1);
  }

  /** Taking a vector from list `i` brings list `i + 1` in reach. */
  lemma PositionConsume(consumed: seq<int>, i: int, consumed': seq<int>)
    requires 0 <= i < |consumed| && consumed' == consumed[i := consumed[i] + 1]
    ensures Position(consumed', i + 1) == Position(consumed, i) + (if i + 1 < |consumed| then [consumed[i + 1]] else [])
  {
    PositionParts(consumed, i);
    PositionParts(consumed', i + 1);
    assert InUse(consumed', i + 1) == InUse(consumed, i) + [consumed[i]];
  }

  /** Dropping the iterator of list `i` moves list `i - 1` on. */
  lemma PositionStop(consumed: seq<int>, i: int, consumed': seq<int>)
    requires 0 < i < |consumed| && consumed' == consumed[i := 0]
    ensures Position(consumed, i) == InUse(consumed, i) + [consumed[i]]
    ensures Position(consumed', i - 1) == Advance(InUse(consumed, i))
  {
    PositionParts(consumed, i);
    PositionParts(consumed', i - 1);
    assert InUse(consumed', i - 1) == InUse(consumed, i)[..i - 1];
  }

  /** The first vector of the first list starts the odometer at the first
      combination. */
  lemma StartStep(L: seq<seq<seq<int>>>, consumed: seq<int>, pvalues: seq<seq<int>>)
    requires |L| >= 1 && |L[0]| >= 1
    requires consumed == [1] + Repeat(0, |L| - 1) && pvalues == [L[0][0]] + seq(|L| - 1, _ => [])
    ensures Odometer(L, consumed, pvalues, 1) && From(L, Position(consumed, 1)) == Product(L)
  {
    assert forall k :: 1 <= k < |L| ==> consumed[k] == 0;
    StartFrom(L, consumed);
  }

  lemma StartFrom(L: seq<seq<seq<int>>>, consumed: seq<int>)
    requires |L| >= 1 && |L[0]| >= 1 && |consumed| == |L| && consumed[0] == 1
    requires |L| > 1 ==> consumed[1] == 0
    ensures From(L, Position(consumed, 1)) == Product(L)
  {
    PositionParts(consumed, 1);
    var p := InUse(consumed, 1);
    assert p == [0];
    FromZero(L, []);
    assert [] + [0] == [0];
    if |L| > 1 {
      FromZero(L, [0]);
    } else {
      assert p + [] == p;
    }
  }

  /** `pvalues[i] = iterators[i].__next__()` when the iterator has a vector
      left: the same combinations remain, and the odometer does not go
      back. */
  lemma ConsumeStep(L: seq<seq<seq<int>>>, consumed: seq<int>, pvalues: seq<seq<int>>, i: int, consumed': seq<int>, pvalues': seq<seq<int>>)
    requires Odometer(L, consumed, pvalues, i) && i < |L| && consumed[i] < |L[i]|
    requires consumed' == consumed[i := consumed[i] + 1] && pvalues' == pvalues[i := L[i][consumed[i]]]
    ensures Odometer(L, consumed', pvalues', i + 1)
    ensures From(L, Position(consumed', i + 1)) == From(L, Position(consumed, i))
    ensures Progress(L, consumed, i) <= Progress(L, consumed', i + 1)
  {
    PositionConsume(consumed, i, consumed');
    OdometerBounded(L, consumed', pvalues', i + 1);
    OdometerBounded(L, consumed, pvalues, i);
    ConsumeFrom(L, consumed, pvalues, i, consumed');
    ConsumeProgress(L, consumed, i, consumed');
  }

  lemma ConsumeFrom(L: seq<seq<seq<int>>>, consumed: seq<int>, pvalues: seq<seq<int>>, i: int, consumed': seq<int>)
    requires Odometer(L, consumed, pvalues, i) && i < |L| && consumed[i] < |L[i]|
    requires consumed' == consumed[i := consumed[i] + 1]
    ensures From(L, Position(consumed', i + 1)) == From(L, Position(consumed, i))
  {
    var p := Position(consumed, i);
    PositionConsume(consumed, i, consumed');
    PositionParts(consumed, i);
    if i + 1 < |L| {
      forall k | 0 <= k < |p| ensures 0 <= p[k] < |L[k]| {
        if k < i {
          assert p[k] == consumed[k] - 1;
        }
      }
      assert consumed[i + 1] == 0;
      FromZero(L, p);
    } else {
      assert p + [] == p;
    }
  }

  lemma ConsumeProgress(L: seq<seq<seq<int>>>, consumed: seq<int>, i: int, consumed': seq<int>)
    requires |consumed| == |L| && 0 <= i < |L| && consumed[i] < |L[i]|
    requires consumed' == consumed[i := consumed[i] + 1]
    requires Bounded(L, Position(consumed, i)) && Bounded(L, Position(consumed', i + 1))
    requires i + 1 < |L| ==> consumed[i + 1] == 0
    ensures Progress(L, consumed, i) <= Progress(L, consumed', i + 1)
  {
    var p := Position(consumed, i);
    PositionConsume(consumed, i, consumed');
    PositionParts(consumed, i);
    if i + 1 < |L| {
      assert p[..i + 1] == (p + [0])[..i + 1];
      ProgressIncrease(L, consumed, i, consumed', i + 1, i + 1);
    } else {
      assert p + [] == p;
    }
  }

  /** `pvalues[i] = iterators[i].__next__()` when the iterator is exhausted:
      with no list before, nothing remains; otherwise the iterator is
      dropped and the list before moves on, with the same combinations
      remaining and the odometer further on. */
  lemma StopStep(L: seq<seq<seq<int>>>, consumed: seq<int>, pvalues: seq<seq<int>>, i: int, consumed': seq<int>)
    requires Odometer(L, consumed, pvalues, i) && i < |L| && consumed[i] == |L[i]|
    requires consumed' == consumed[i := 0]
    ensures i == 0 ==> From(L, Position(consumed, i)) == []
    ensures i > 0 ==> Odometer(L, consumed', pvalues, i - 1)
    ensures i > 0 ==> From(L, Position(consumed', i - 1)) == From(L, Position(consumed, i))
    ensures i > 0 ==> Progress(L, consumed, i) < Progress(L, consumed', i - 1)
  {
    if i == 0 {
      PositionParts(consumed, 0);
      assert Position(consumed, 0) == [|L[0]|];
    } else {
      OdometerBounded(L, consumed', pvalues, i - 1);
      OdometerBounded(L, consumed, pvalues, i);
      StopFrom(L, consumed, pvalues, i, consumed');
      StopProgress(L, consumed, i, consumed');
    }
  }

  lemma StopFrom(L: seq<seq<seq<int>>>, consumed: seq<int>, pvalues: seq<seq<int>>, i: int, consumed': seq<int>)
    requires Odometer(L, consumed, pvalues, i) && 0 < i < |L| && consumed[i] == |L[i]|
    requires consumed' == consumed[i := 0]
    ensures From(L, Position(consumed', i - 1)) == From(L, Position(consumed, i))
  {
    var p := InUse(consumed, i);
    PositionStop(consumed, i, consumed');
    forall k | 0 <= k < i ensures 0 <= p[k] < |L[k]| {
    }
    FromExhausted(L, p);
  }

  lemma StopProgress(L: seq<seq<seq<int>>>, consumed: seq<int>, i: int, consumed': seq<int>)
    requires 0 < i < |consumed| && consumed' == consumed[i := 0]
    requires Bounded(L, Position(consumed, i)) && Bounded(L, Position(consumed', i - 1))
    ensures Progress(L, consumed, i) < Progress(L, consumed', i - 1)
  {
    var p := InUse(consumed, i);
    PositionStop(consumed, i, consumed');
    assert Position(consumed, i)[..i - 1] == p[..i - 1] == Advance(p)[..i - 1];
    ProgressIncrease(L, consumed, i, consumed', i - 1, i - 1);
  }

  /** With a vector taken from every list, their combination is the next
      one, and the last list moves on. */
  lemma YieldStep(L: seq<seq<seq<int>>>, consumed: seq<int>, pvalues: seq<seq<int>>)
    requires Odometer(L, consumed, pvalues, |L|) && |L| >= 1
    ensures Odometer(L, consumed, pvalues, |L| - 1)
    ensures From(L, Position(consumed, |L|)) == [pvalues] + From(L, Position(consumed, |L| - 1))
    ensures Progress(L, consumed, |L|) < Progress(L, consumed, |L| - 1)
  {
    var n := |L|;
    OdometerBounded(L, consumed, pvalues, n - 1);
    OdometerBounded(L, consumed, pvalues, n);
    YieldFrom(L, consumed, pvalues);
    PositionAll(consumed);
    ProgressIncrease(L, consumed, n, consumed, n - 1, n - 1);
  }

  lemma YieldFrom(L: seq<seq<seq<int>>>, consumed: seq<int>, pvalues: seq<seq<int>>)
    requires Odometer(L, consumed, pvalues, |L|) && |L| >= 1
    ensures From(L, Position(consumed, |L|)) == [pvalues] + From(L, Position(consumed, |L| - 1))
  {
    var p := InUse(consumed, |L|);
    PositionAll(consumed);
    forall k | 0 <= k < |L| ensures 0 <= p[k] < |L[k]| {
    }
    FromFull(L, p);
    var pick := Pick(L, p);
    forall k | 0 <= k < |L| ensures pick[k] == pvalues[k] {
      assert pick[k] == L[k][p[k]] && p[k] == consumed[k] - 1;
    }
    assert pick == pvalues;
  }

  // ---------------------------------------------------------------------
  // The generator

  /** The lists of the partition after the vector of value `i` has been
      added. */
  lemma SpreadNext(t: seq<seq<int>>, vals: seq<int>, m: nat, i: int, before: seq<seq<int>>, after: seq<seq<int>>)
    requires |t| == |vals| && Shaped(t, m) && 0 <= i < |t|
    requires Shaped(t[..i], m) && Shaped(t[..i + 1], m)
    requires before == Spread(t[..i], vals[..i], m) && |after| == m
    requires forall l :: 0 <= l < m ==> after[l] == before[l] + Repeat(vals[i], if t[i][l] < 0 then 0 else t[i][l])
    ensures after == Spread(t[..i + 1], vals[..i + 1], m)
  {
    var t', vals' := t[..i + 1], vals[..i + 1];
    assert t'[..i] == t[..i] && vals'[..i] == vals[..i];
    assert t'[i] == t[i] && vals'[i] == vals[i];
    var s := Spread(t', vals', m);
    assert s == AddCopies(before, vals[i], t[i]);
    assert forall l :: 0 <= l < m ==> s[l] == after[l];
  }

  lemma ShapedPrefix(t: seq<seq<int>>, m: nat, i: int)
    requires Shaped(t, m) && 0 <= i <= |t|
    ensures Shaped(t[..i], m)
  {
    assert forall k :: 0 <= k < i ==> t[..i][k] == t[k];
  }

  /** The loops of `commutative_partition_iter` that build a partition from
      one vector per distinct value: list `j` receives `cs[j]` copies of each
      value `v`, in the order of the values. */
  method BuildPartition(pvalues: seq<seq<int>>, counts: seq<(int, int)>, m: nat) returns (partition: seq<seq<int>>)
    requires |pvalues| == |counts| && Shaped(pvalues, m)
    ensures partition == Spread(pvalues, Keys(counts), m)
  {
    ghost var vals := Keys(counts);
    partition := seq(m, _ => []);
    for i := 0 to |pvalues|
      invariant Shaped(pvalues[..i], m)
      invariant partition == Spread(pvalues[..i], vals[..i], m)
    {
      var cs, v := pvalues[i], counts[i].0;
      ghost var before := partition;
      for j := 0 to |cs|
        invariant |partition| == m
        invariant forall l :: 0 <= l < j ==> partition[l] == before[l] + Repeat(v, if cs[l] < 0 then 0 else cs[l])
        invariant forall l :: j <= l < m ==> partition[l] == before[l]
      {
        partition := partition[j := partition[j] + Repeat(v, if cs[j] < 0 then 0 else cs[j])];
      }
      ShapedPrefix(pvalues, m, i + 1);
      SpreadNext(pvalues, vals, m, i, before, partition);
    }
    assert pvalues[..|pvalues|] == pvalues && vals[..|pvalues|] == vals;
  }

  /** Filling the zero vector from the right reaches any total the caps can
      hold. */
  lemma ZerosFilled(maxv: seq<int>, c: int, zeros: seq<int>)
    requires forall j :: 0 <= j < |maxv| ==> maxv[j] >= 0
    requires 0 <= c <= Sum(maxv) && zeros == Repeat(0, |maxv|)
    ensures IsFixedSumVector(AddFromRight(zeros, maxv, c), zeros, maxv, c)
  {
    assert Sum(zeros) == 0;
    assert Below(zeros, maxv);
    AddFromRightBounds(zeros, maxv, c);
  }

  /** The inner loop of `commutative_partition_iter`: it moves from list
      `i` onwards, taking the next vector of each list, until it has one
      vector of every list or finds a list used up. Neither step changes the
      combinations still to come. */
  method Descend(lists: seq<seq<seq<int>>>, ghost rest: seq<seq<seq<int>>>, consumed0: seq<int>, pvalues0: seq<seq<int>>, i0: int)
    returns (consumed: seq<int>, pvalues: seq<seq<int>>, i: int, stopped: bool)
    requires Odometer(lists, consumed0, pvalues0, i0) && rest == From(lists, Position(consumed0, i0))
    ensures Odometer(lists, consumed, pvalues, i) && rest == From(lists, Position(consumed, i))
    ensures Progress(lists, consumed0, i0) <= Progress(lists, consumed, i)
    ensures stopped ==> i < |lists| && consumed[i] == |lists[i]|
    ensures !stopped ==> i == |lists|
  {
    consumed, pvalues, i := consumed0, pvalues0, i0;
    while i < |lists| && consumed[i] < |lists[i]|
      invariant Odometer(lists, consumed, pvalues, i)
      invariant rest == From(lists, Position(consumed, i))
      invariant Progress(lists, consumed0, i0) <= Progress(lists, consumed, i)
      decreases |lists| - i
    {
      var consumed', pvalues' := consumed[i := consumed[i] + 1], pvalues[i := lists[i][consumed[i]]];
      ConsumeStep(lists, consumed, pvalues, i, consumed', pvalues');
      consumed, pvalues, i := consumed', pvalues', i + 1;
    }
    stopped := i < |lists|;
  }

  /** `x` is the least of the values. */
  ghost predicate Least(values: seq<int>, x: int) {
    x in values && forall y :: y in values ==> x <= y
  }

  /** The first run is that of the least value. */
  lemma FirstLeast(values: seq<int>, counts: seq<(int, int)>)
    requires RunLengths(multiset(values), counts) && |counts| > 0
    ensures Least(values, counts[0].0) && multiset(values)[counts[0].0] == counts[0].1
    ensures forall x :: Least(values, x) ==> x == counts[0].0
  {
    var x0 := counts[0].0;
    assert x0 in multiset(values);
    forall y | y in values ensures x0 <= y {
      assert y in multiset(values);
      var k :| 0 <= k < |counts| && Keys(counts)[k] == y;
    }
    assert x0 in values;
    forall x | Least(values, x) ensures x == x0 {
      assert x in multiset(values) && x <= x0;
      var k :| 0 <= k < |counts| && Keys(counts)[k] == x;
      assert k == 0;
    }
  }

  /** The first iterator, for the least value, is empty exactly when that
      value occurs more often than the lists can hold together. */
  lemma FirstEmpty(values: seq<int>, counts: seq<(int, int)>, maxv: seq<int>, vs: seq<seq<int>>)
    requires RunLengths(multiset(values), counts) && |counts| > 0
    requires forall j :: 0 <= j < |maxv| ==> maxv[j] >= 0
    requires Enumerates(vs, Repeat(0, |maxv|), maxv, counts[0].1)
    ensures vs == [] <==> exists x :: Least(values, x) && multiset(values)[x] > Sum(maxv)
  {
    var x0, c0 := counts[0].0, counts[0].1;
    var zeros := Repeat(0, |maxv|);
    FirstLeast(values, counts);
    assert multiset(values)[x0] == c0;
    if c0 <= Sum(maxv) {
      ZerosFilled(maxv, c0, zeros);
      assert AddFromRight(zeros, maxv, c0) in vs;
    } else if vs != [] {
      assert IsFixedSumVector(vs[0], zeros, maxv, c0);
      SumMonotone(vs[0], maxv);
    }
  }

  /** What ends `commutative_partition_iter`: it runs out of partitions, an
      `IndexError` escapes it, or the first value has no vector, so that the
      `StopIteration` of that first `__next__()` ends the generator. */
  datatype Outcome = Yielded(partitions: seq<seq<seq<int>>>) | IndexError | FirstVectorMissing

  /** Every vector of every list has `m` components. */
  ghost predicate ListsShaped(lists: seq<seq<seq<int>>>, m: nat) {
    forall k, v :: 0 <= k < |lists| && v in lists[k] ==> |v| == m
  }

  /** An odometer holding one vector of each list holds vectors of the
      lists' shape. */
  lemma OdometerShaped(L: seq<seq<seq<int>>>, consumed: seq<int>, pvalues: seq<seq<int>>, m: nat)
    requires Odometer(L, consumed, pvalues, |L|) && ListsShaped(L, m)
    ensures Shaped(pvalues, m)
  {
    forall k | 0 <= k < |pvalues| ensures |pvalues[k]| == m {
      assert pvalues[k] in L[k];
    }
  }

  /** Yielding the partition of the current combination, if it is kept,
      leaves the partitions of the combinations after it still to come. */
  lemma YieldTurn(now: seq<seq<seq<int>>>, pvalues: seq<seq<int>>, later: seq<seq<seq<int>>>, vals: seq<int>, minv: seq<int>, maxv: seq<int>,
                  out: seq<seq<seq<int>>>, out': seq<seq<seq<int>>>, all: seq<seq<seq<int>>>)
    requires now == [pvalues] + later
    requires out + Yields(now, vals, minv, maxv) == all
    requires out' == out + Yields([pvalues], vals, minv, maxv)
    ensures out' + Yields(later, vals, minv, maxv) == all
  {
    YieldsAppend([pvalues], later, vals, minv, maxv);
    var here, rest := Yields([pvalues], vals, minv, maxv), Yields(later, vals, minv, maxv);
    assert out + (here + rest) == all;
    assert out' + rest == out + (here + rest);
  }

  /** A single combination yields its partition if it is kept and nothing
      otherwise. */
  lemma YieldsOne(t: seq<seq<int>>, vals: seq<int>, minv: seq<int>, maxv: seq<int>)
    ensures Kept(t, vals, minv, maxv) ==> Yields([t], vals, minv, maxv) == [Spread(t, vals, |minv|)]
    ensures !Kept(t, vals, minv, maxv) ==> Yields([t], vals, minv, maxv) == []
  {
    assert [t][0] == t && [t][1..] == [];
  }

  /** The body of the innermost loop of `commutative_partition_iter` once it
      holds one vector of every list: the partition of that combination is
      yielded when the list sizes are within the bounds. */
  method Emit(pvalues: seq<seq<int>>, counts: seq<(int, int)>, minv: seq<int>, maxv: seq<int>, out: seq<seq<seq<int>>>)
    returns (out': seq<seq<seq<int>>>)
    requires |pvalues| == |counts| && Shaped(pvalues, |minv|)
    ensures out' == out + Yields([pvalues], Keys(counts), minv, maxv)
  {
    var m := |minv|;
    var sums := ColumnSums(pvalues, m);
    ghost var here := Yields([pvalues], Keys(counts), minv, maxv);
    YieldsOne(pvalues, Keys(counts), minv, maxv);
    assert Kept(pvalues, Keys(counts), minv, maxv) <==> InBounds(sums, minv, maxv);
    if InBounds(sums, minv, maxv) {
      var partition := BuildPartition(pvalues, counts, m);
      assert here == [partition];
      out' := out + [partition];
    } else {
      assert here == [];
      out' := out;
      assert out' == out + here;
    }
  }

  /** The first list's iterator is advanced once and the others are
      created: the odometer stands at the first vector of the first list,
      before all combinations. */
  method Start(lists: seq<seq<seq<int>>>, ghost vals: seq<int>, ghost minv: seq<int>, ghost maxv: seq<int>,
               ghost all: seq<seq<seq<int>>>, ghost top: int)
    returns (consumed: seq<int>, pvalues: seq<seq<int>>)
    requires |lists| >= 1 && |lists[0]| >= 1
    requires all == Yields(Product(lists), vals, minv, maxv) && top == Pow(MaxLen(lists) + 2, |lists|)
    ensures Walking(lists, vals, minv, maxv, all, top, Product(lists), consumed, pvalues, 1, [])
  {
    var n := |lists|;
    consumed := [1] + Repeat(0, n - 1);
    pvalues := [lists[0][0]] + seq(n - 1, _ => []);
    StartStep(lists, consumed, pvalues);
    OdometerProgress(lists, consumed, pvalues, 1, top);
    assert [] + all == all;
  }

  /** The state of the nested loops of `commutative_partition_iter`
      between steps: an odometer over `L` whose remaining combinations
      `rest` yield what is still missing from `all`, and whose progress
      stays below `top`. */
  ghost predicate Walking(L: seq<seq<seq<int>>>, vals: seq<int>, minv: seq<int>, maxv: seq<int>, all: seq<seq<seq<int>>>, top: int,
                          rest: seq<seq<seq<int>>>, consumed: seq<int>, pvalues: seq<seq<int>>, i: int, out: seq<seq<seq<int>>>) {
    Odometer(L, consumed, pvalues, i) &&
    rest == From(L, Position(consumed, i)) &&
    out + Yields(rest, vals, minv, maxv) == all &&
    0 <= Progress(L, consumed, i) < top
  }

  /** A used-up iterator at list `i` is dropped and the loop goes back to
      list `i - 1`; at the first list the generator is done. */
  method Backtrack(L: seq<seq<seq<int>>>, ghost vals: seq<int>, ghost minv: seq<int>, ghost maxv: seq<int>,
                   ghost all: seq<seq<seq<int>>>, ghost top: int, ghost rest: seq<seq<seq<int>>>,
                   consumed: seq<int>, pvalues: seq<seq<int>>, i: int, out: seq<seq<seq<int>>>)
    returns (done: bool, consumed': seq<int>, i': int)
    requires Odometer(L, consumed, pvalues, i) && i < |L| && consumed[i] == |L[i]|
    requires rest == From(L, Position(consumed, i)) && out + Yields(rest, vals, minv, maxv) == all
    requires top == Pow(MaxLen(L) + 2, |L|)
    ensures done <==> i == 0
    ensures done ==> out == all
    ensures !done ==> Walking(L, vals, minv, maxv, all, top, rest, consumed', pvalues, i', out)
    ensures !done ==> Progress(L, consumed, i) < Progress(L, consumed', i')
  {
    consumed' := consumed[i := 0];
    StopStep(L, consumed, pvalues, i, consumed');
    if i == 0 {
      assert out + [] == all;
      return true, consumed', i;
    }
    done, i' := false, i - 1;
    OdometerProgress(L, consumed', pvalues, i', top);
  }

  /** With one vector of every list, the partition of the combination is
      yielded if kept, and the loop goes back to the last list. */
  method Produce(L: seq<seq<seq<int>>>, counts: seq<(int, int)>, minv: seq<int>, maxv: seq<int>,
                 ghost all: seq<seq<seq<int>>>, ghost top: int, ghost rest: seq<seq<seq<int>>>,
                 consumed: seq<int>, pvalues: seq<seq<int>>, out: seq<seq<seq<int>>>)
    returns (out': seq<seq<seq<int>>>, ghost rest': seq<seq<seq<int>>>)
    requires Odometer(L, consumed, pvalues, |L|) && |L| == |counts| >= 1 && ListsShaped(L, |minv|)
    requires rest == From(L, Position(consumed, |L|)) && out + Yields(rest, Keys(counts), minv, maxv) == all
    requires top == Pow(MaxLen(L) + 2, |L|)
    ensures Walking(L, Keys(counts), minv, maxv, all, top, rest', consumed, pvalues, |L| - 1, out')
    ensures Progress(L, consumed, |L|) < Progress(L, consumed, |L| - 1)
  {
    var n := |L|;
    YieldStep(L, consumed, pvalues);
    OdometerShaped(L, consumed, pvalues, |minv|);
    out' := Emit(pvalues, counts, minv, maxv, out);
    rest' := From(L, Position(consumed, n - 1));
    YieldTurn(rest, pvalues, rest', Keys(counts), minv, maxv, out, out', all);
    OdometerProgress(L, consumed, pvalues, n - 1, top);
  }

  /** One pass of the nested loops of `commutative_partition_iter`: the
      generator moves down the lists to the next combination or to a
      used-up iterator, yields or drops accordingly, and either finishes or
      has moved the odometer on. */
  method Step(L: seq<seq<seq<int>>>, counts: seq<(int, int)>, minv: seq<int>, maxv: seq<int>,
              ghost all: seq<seq<seq<int>>>, ghost top: int, ghost rest: seq<seq<seq<int>>>,
              consumed: seq<int>, pvalues: seq<seq<int>>, i: int, out: seq<seq<seq<int>>>)
    returns (done: bool, consumed': seq<int>, pvalues': seq<seq<int>>, i': int, out': seq<seq<seq<int>>>, ghost rest': seq<seq<seq<int>>>)
    requires |L| == |counts| >= 1 && ListsShaped(L, |minv|) && top == Pow(MaxLen(L) + 2, |L|)
    requires Walking(L, Keys(counts), minv, maxv, all, top, rest, consumed, pvalues, i, out)
    ensures done ==> out' == all
    ensures !done ==> Walking(L, Keys(counts), minv, maxv, all, top, rest', consumed', pvalues', i', out')
    ensures !done ==> Progress(L, consumed, i) < Progress(L, consumed', i')
  {
    var stopped;
    consumed', pvalues', i', stopped := Descend(L, rest, consumed, pvalues, i);
    if stopped {
      done, consumed', i' := Backtrack(L, Keys(counts), minv, maxv, all, top, rest, consumed', pvalues', i', out);
      out', rest' := out, rest;
    } else {
      done := false;
      out', rest' := Produce(L, counts, minv, maxv, all, top, rest, consumed', pvalues', out);
      i' := i' - 1;
    }
  }

  /** The nested loops of `commutative_partition_iter` over a non-empty
      first list: an odometer over the lists that yields, in order, the
      partition of every combination whose list sizes are within the
      bounds, and stops when the first list is used up. */
  method Enumerate(lists: seq<seq<seq<int>>>, counts: seq<(int, int)>, minv: seq<int>, maxv: seq<int>)
    returns (out: seq<seq<seq<int>>>)
    requires |lists| == |counts| >= 1 && |lists[0]| >= 1 && ListsShaped(lists, |minv|)
    ensures out == Yields(Product(lists), Keys(counts), minv, maxv)
  {
    ghost var all := Yields(Product(lists), Keys(counts), minv, maxv);
    ghost var top := Pow(MaxLen(lists) + 2, |lists|);
    ghost var rest := Product(lists);
    var consumed, pvalues := Start(lists, Keys(counts), minv, maxv, all, top);
    var i := 1;
    out := [];
    var done := false;
    while !done
      invariant !done ==> Walking(lists, Keys(counts), minv, maxv, all, top, rest, consumed, pvalues, i, out)
      invariant done ==> out == all
      decreases if done then 0 else top - Progress(lists, consumed, i) + 1
    {
      done, consumed, pvalues, i, out, rest := Step(lists, counts, minv, maxv, all, top, rest, consumed, pvalues, i, out);
    }
  }

  /** `commutative_partition_iter(values, min_vect, max_vect)`: no values
      raise `IndexError`; when the lists cannot hold the least value, the
      first `__next__()` raises `StopIteration` inside the generator, which
      the caller sees as `RuntimeError` on Python 3.7 and later (PEP 479)
      and as an end without any partition before; otherwise the generator yields exactly
      the partitions of the values into lists with sizes within the bounds,
      each once for every way of placing its values up to order inside the
      lists. */
  method CommutativePartitionIter(values: seq<int>, minv: seq<int>, maxv: seq<int>) returns (r: Outcome)
    requires values != [] ==> |minv| == |maxv| && forall j :: 0 <= j < |maxv| ==> maxv[j] >= 0
    ensures r.IndexError? <==> values == []
    ensures r.FirstVectorMissing? <==> values != [] && exists x :: Least(values, x) && multiset(values)[x] > Sum(maxv)
    ensures r.Yielded? ==> forall p :: p in r.partitions ==> IsCommutativePartition(values, minv, maxv, p)
    ensures r.Yielded? ==> forall p :: IsCommutativePartition(values, minv, maxv, p) ==>
                             exists q :: q in r.partitions && SameLists(q, p)
  {
    var counts := Count(values);
    var n := |counts|;
    if n == 0 {
      return IndexError;
    }
    var m := |minv|;
    var zeros := Repeat(0, m);
    var lists: seq<seq<seq<int>>> := [];
    for k := 0 to n
      invariant |lists| == k && forall l :: 0 <= l < k ==> Enumerates(lists[l], zeros, maxv, counts[l].1)
    {
      var vs := FixedSumVectorIter(zeros, maxv, counts[k].1);
      lists := lists + [vs];
    }
    FirstEmpty(values, counts, maxv, lists[0]);
    if |lists[0]| == 0 {
      return FirstVectorMissing;
    }
    forall k, v | 0 <= k < n && v in lists[k] ensures |v| == m {
      assert IsFixedSumVector(v, zeros, maxv, counts[k].1);
    }
    YieldsSound(values, counts, lists, minv, maxv);
    YieldsComplete(values, counts, lists, minv, maxv);
    var out := Enumerate(lists, counts, minv, maxv);
    return Yielded(out);
  }
}
