/** Run-length counting of a multiset (`_count` in patternmatcher/utils.py)
    and the partitions of a multiset into a fixed number of lists with size
    limits (`commutative_partition_iter`). Values are integers, ordered as
    Python orders them. */
module MultisetPartitions {
  import opened Sequences
  import opened Positional
  import opened FixedSum
  import opened Partitions

  // ---------------------------------------------------------------------
  // `sorted`

  predicate Ascending(s: seq<int>) {
    forall i, j :: 0 <= i < j < |s| ==> s[i] <= s[j]
  }

  function Insert(x: int, s: seq<int>): seq<int> {
    if s == [] || x <= s[0] then [x] + s else [s[0]] + Insert(x, s[1..])
  }

  /** Python's `sorted` on a list of integers. */
  function SortedList(s: seq<int>): seq<int> {
    if s == [] then [] else Insert(s[0], SortedList(s[1..]))
  }

  lemma AscendingCons(a: int, r: seq<int>)
    requires Ascending(r) && forall k :: 0 <= k < |r| ==> a <= r[k]
    ensures Ascending([a] + r)
  {
    forall i, j | 0 <= i < j < |r| + 1
      ensures ([a] + r)[i] <= ([a] + r)[j]
    {
      assert ([a] + r)[j] == r[j - 1];
      if i > 0 {
        assert ([a] + r)[i] == r[i - 1];
      }
    }
  }

  lemma AscendingTail(s: seq<int>)
    requires Ascending(s) && s != []
    ensures Ascending(s[1..])
  {
    forall i, j | 0 <= i < j < |s| - 1 ensures s[1..][i] <= s[1..][j] {
      assert s[1..][i] == s[i + 1] && s[1..][j] == s[j + 1];
    }
  }

  lemma {:induction false} InsertFacts(x: int, s: seq<int>)
    requires Ascending(s)
    ensures multiset(Insert(x, s)) == multiset(s) + multiset{x}
    ensures Ascending(Insert(x, s))
  {
    if s == [] || x <= s[0] {
      forall k | 0 <= k < |s| ensures x <= s[k] {
        assert s[0] <= s[k];
      }
      AscendingCons(x, s);
    } else {
      var t := s[1..];
      assert s == [s[0]] + t;
      AscendingTail(s);
      InsertFacts(x, t);
      var r := Insert(x, t);
      forall k | 0 <= k < |r| ensures s[0] <= r[k] {
        assert r[k] in multiset(r);
        if r[k] != x {
          assert r[k] in multiset(t);
          var j :| 0 <= j < |t| && t[j] == r[k];
          assert t[j] == s[j + 1];
        }
      }
      AscendingCons(s[0], r);
    }
  }

  lemma {:induction false} SortedListFacts(s: seq<int>)
    ensures multiset(SortedList(s)) == multiset(s)
    ensures Ascending(SortedList(s)) && |SortedList(s)| == |s|
  {
    if s != [] {
      SortedListFacts(s[1..]);
      InsertFacts(s[0], SortedList(s[1..]));
      assert s == [s[0]] + s[1..];
      assert |multiset(SortedList(s))| == |multiset(s)|;
    }
  }

  // ---------------------------------------------------------------------
  // `_count`

  /** The counts of a list of `(value, count)` pairs. */
  function Counts(cs: seq<(int, int)>): (r: seq<int>)
    ensures |r| == |cs| && forall k :: 0 <= k < |cs| ==> r[k] == cs[k].1
  {
    seq(|cs|, k requires 0 <= k < |cs| => cs[k].1)
  }

  /** The values of a list of `(value, count)` pairs. */
  function Keys(cs: seq<(int, int)>): (r: seq<int>)
    ensures |r| == |cs| && forall k :: 0 <= k < |cs| ==> r[k] == cs[k].0
  {
    seq(|cs|, k requires 0 <= k < |cs| => cs[k].0)
  }

  /** `counts` lists the distinct values of `m` in ascending order, each with
      its multiplicity in `m`. */
  ghost predicate RunLengths(m: multiset<int>, counts: seq<(int, int)>) {
    (forall i, j :: 0 <= i < j < |counts| ==> counts[i].0 < counts[j].0) &&
    (forall i :: 0 <= i < |counts| ==> 0 < counts[i].1 == m[counts[i].0]) &&
    (forall x :: x in m ==> x in Keys(counts))
  }

  lemma CountsAppend(cs: seq<(int, int)>, p: (int, int))
    ensures Counts(cs + [p]) == Counts(cs) + [p.1]
    ensures Sum(Counts(cs + [p])) == Sum(Counts(cs)) + p.1
  {
    assert Counts(cs + [p]) == Counts(cs) + [p.1];
    SumAppend(Counts(cs), [p.1]);
    assert Sum([p.1]) == p.1 + Sum([p.1][1..]);
  }

  /** The number of occurrences of `x` among the first `i` elements of
      `s`. */
  function CountOf(s: seq<int>, i: int, x: int): nat
    requires 0 <= i <= |s|
  {
    if i == 0 then 0 else CountOf(s, i - 1, x) + (if s[i - 1] == x then 1 else 0)
  }

  lemma {:induction false} CountOfMultiset(s: seq<int>, i: int, x: int)
    requires 0 <= i <= |s|
    ensures CountOf(s, i, x) == multiset(s[..i])[x]
  {
    if i > 0 {
      CountOfMultiset(s, i - 1, x);
      assert s[..i] == s[..i - 1] + [s[i - 1]];
    }
  }

  /** A value above every one of the first `i` elements does not occur among
      them. */
  lemma {:induction false} CountOfAbove(s: seq<int>, i: int, x: int)
    requires 0 <= i <= |s| && forall j :: 0 <= j < i ==> s[j] < x
    ensures CountOf(s, i, x) == 0
  {
    if i > 0 {
      CountOfAbove(s, i - 1, x);
    }
  }

  /** The state of the loop of `_count` after the first `i` elements of the
      sorted list `s`: the runs before the current one are in `counts`, the
      current one has value `lastValue` and length `lastCount`. */
  ghost predicate Scanned(s: seq<int>, i: int, lastValue: Option<int>, lastCount: int, counts: seq<(int, int)>)
    requires 0 <= i <= |s|
  {
    (i == 0 ==> lastValue == None && lastCount == 0 && counts == []) &&
    (i > 0 ==> lastValue == Some(s[i - 1]) && 0 < lastCount == CountOf(s, i, s[i - 1])) &&
    (i > 0 ==> forall k :: 0 <= k < |counts| ==> counts[k].0 < s[i - 1]) &&
    (forall k, l :: 0 <= k < l < |counts| ==> counts[k].0 < counts[l].0) &&
    (forall k :: 0 <= k < |counts| ==> 0 < counts[k].1 == CountOf(s, i, counts[k].0)) &&
    (forall x :: CountOf(s, i, x) > 0 ==> (i > 0 && x == s[i - 1]) || x in Keys(counts)) &&
    Sum(Counts(counts)) + lastCount == i
  }

  /** An element different from the current run closes it and starts a new
      one. */
  lemma NewRun(s: seq<int>, i: int, lastValue: Option<int>, lastCount: int, counts: seq<(int, int)>)
    requires Ascending(s) && 0 <= i < |s| && Scanned(s, i, lastValue, lastCount, counts)
    requires lastValue != Some(s[i])
    ensures lastCount > 0 ==> lastValue.Some?
    ensures Scanned(s, i + 1, Some(s[i]), 1, if lastCount > 0 then counts + [(lastValue.value, lastCount)] else counts)
  {
    var value := s[i];
    var j := i + 1;
    if i == 0 {
      assert CountOf(s, j, value) == 1;
      forall x | CountOf(s, j, x) > 0 ensures x == value {
        assert CountOf(s, j, x) == CountOf(s, 0, x) + (if s[0] == x then 1 else 0);
      }
    } else {
      var p := (s[i - 1], lastCount);
      assert s[i - 1] < value;
      CountOfAbove(s, i, value);
      var c := counts + [p];
      CountsAppend(counts, p);
      assert Keys(c) == Keys(counts) + [p.0];
      forall k | 0 <= k < |c| ensures 0 < c[k].1 == CountOf(s, j, c[k].0) && c[k].0 < value {
        if k < |counts| {
          assert c[k] == counts[k];
        }
      }
      forall x | CountOf(s, j, x) > 0 ensures x == value || x in Keys(c) {
        if x != value {
          assert CountOf(s, i, x) > 0;
        }
      }
    }
  }

  /** An element equal to the current run lengthens it. */
  lemma SameRun(s: seq<int>, i: int, lastValue: Option<int>, lastCount: int, counts: seq<(int, int)>)
    requires Ascending(s) && 0 <= i < |s| && Scanned(s, i, lastValue, lastCount, counts)
    requires lastValue == Some(s[i])
    ensures Scanned(s, i + 1, lastValue, lastCount + 1, counts)
  {
    var j := i + 1;
    assert i > 0 && s[i - 1] == s[i];
    assert CountOf(s, j, s[i]) == CountOf(s, i, s[i]) + 1;
    forall k | 0 <= k < |counts| ensures CountOf(s, j, counts[k].0) == CountOf(s, i, counts[k].0) {
    }
    forall x | CountOf(s, j, x) > 0 ensures x == s[i] || x in Keys(counts) {
      if x != s[i] {
        assert CountOf(s, i, x) > 0;
      }
    }
  }

  /** After the last element, closing the current run gives the run lengths
      of the whole list. */
  lemma LastRun(s: seq<int>, lastValue: Option<int>, lastCount: int, counts: seq<(int, int)>)
    requires Scanned(s, |s|, lastValue, lastCount, counts)
    ensures lastCount > 0 <==> s != []
    ensures lastCount > 0 ==> lastValue.Some?
    ensures var r := if lastCount > 0 then counts + [(lastValue.value, lastCount)] else counts;
            RunLengths(multiset(s), r) && Sum(Counts(r)) == |s|
  {
    var n := |s|;
    assert s[..n] == s;
    if n == 0 {
      assert multiset(s) == multiset{};
    } else {
      var p := (lastValue.value, lastCount);
      var r := counts + [p];
      CountsAppend(counts, p);
      assert Keys(r) == Keys(counts) + [p.0];
      forall k | 0 <= k < |r| ensures 0 < r[k].1 == multiset(s)[r[k].0] {
        CountOfMultiset(s, n, r[k].0);
        if k < |counts| {
          assert r[k] == counts[k];
        }
      }
      forall x | x in multiset(s) ensures x in Keys(r) {
        CountOfMultiset(s, n, x);
      }
    }
  }

  /** `_count`: the distinct values of `values` in ascending order, each with
      its number of occurrences; the counts add up to the length of
      `values`. */
  method Count(values: seq<int>) returns (counts: seq<(int, int)>)
    ensures RunLengths(multiset(values), counts)
    ensures Sum(Counts(counts)) == |values|
  {
    var s := SortedList(values);
    SortedListFacts(values);
    var lastValue: Option<int> := None;
    var lastCount := 0;
    counts := [];
    for i := 0 to |s|
      invariant Scanned(s, i, lastValue, lastCount, counts)
    {
      var value := s[i];
      if lastValue != Some(value) {
        NewRun(s, i, lastValue, lastCount, counts);
        if lastCount > 0 {
          counts := counts + [(lastValue.value, lastCount)];
        }
        lastValue := Some(value);
        lastCount := 1;
      } else {
        SameRun(s, i, lastValue, lastCount, counts);
        lastCount := lastCount + 1;
      }
    }
    LastRun(s, lastValue, lastCount, counts);
    if lastCount > 0 {
      counts := counts + [(lastValue.value, lastCount)];
    }
  }
}
