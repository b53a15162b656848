/** `partitions_with_count(n, m)` of patternmatcher/utils.py: Knuth's
    Algorithm H (The Art of Computer Programming, Volume 4A, section 7.2.1.4),
    which visits the partitions of `n` into exactly `m` parts in colex order,
    kept in an array `a[0..m]` whose last cell is the sentinel `-1`. */
module IntegerPartitions {
  import opened Sequences
  import opened Positional

  predicate NonIncreasing(p: seq<int>) {
    forall i, j :: 0 <= i < j < |p| ==> p[i] >= p[j]
  }

  /** `p` is a partition of `n` into `m` positive parts, largest first. */
  predicate IsPartitionInto(p: seq<int>, n: int, m: int) {
    |p| == m && Sum(p) == n && NonIncreasing(p) && forall i :: 0 <= i < |p| ==> p[i] >= 1
  }

  /** Colex order: `q` is larger than `p` at the last position where they
      differ. */
  ghost predicate ColexLess(p: seq<int>, q: seq<int>) {
    |p| == |q| && exists j :: 0 <= j < |p| && p[j] < q[j] && p[j + 1..] == q[j + 1..]
  }

  lemma ColexTrans(p: seq<int>, q: seq<int>, r: seq<int>)
    requires ColexLess(p, q) && ColexLess(q, r)
    ensures ColexLess(p, r)
  {
    var j1 :| 0 <= j1 < |p| && p[j1] < q[j1] && p[j1 + 1..] == q[j1 + 1..];
    var j2 :| 0 <= j2 < |q| && q[j2] < r[j2] && q[j2 + 1..] == r[j2 + 1..];
    if j1 >= j2 {
      if j1 > j2 {
        assert q[j1] == q[j2 + 1..][j1 - j2 - 1] == r[j1];
      }
      assert p[j1 + 1..] == q[j1 + 1..] == r[j1 + 1..] by {
        assert q[j1 + 1..] == q[j2 + 1..][j1 - j2..];
        assert r[j1 + 1..] == r[j2 + 1..][j1 - j2..];
      }
      assert p[j1] < r[j1];
    } else {
      assert p[j2] == p[j1 + 1..][j2 - j1 - 1] == q[j2];
      assert p[j2 + 1..] == q[j2 + 1..] == r[j2 + 1..] by {
        assert p[j2 + 1..] == p[j1 + 1..][j2 - j1..];
        assert q[j2 + 1..] == q[j1 + 1..][j2 - j1..];
      }
    }
  }

  /** The array holds a partition of `n` into `m` parts followed by the
      sentinel. */
  ghost predicate Valid(a: array<int>, n: int, m: int)
    reads a
  {
    a.Length == m + 1 && m >= 2 && a[m] == -1 && IsPartitionInto(a[..m], n, m)
  }

  /** The lists the array holds with the source's own test in step H2:
      positive parts summing to `n`, those after the first not increasing,
      and the first at least the second less one. */
  predicate LooseInto(p: seq<int>, n: int, m: int) {
    |p| == m && m >= 2 && Sum(p) == n && (forall i :: 0 <= i < |p| ==> p[i] >= 1) &&
    (forall i, k :: 1 <= i < k < |p| ==> p[i] >= p[k]) && p[0] >= p[1] - 1
  }

  /** The array holds a `LooseInto` list followed by the sentinel. */
  ghost predicate LooseValid(a: array<int>, n: int, m: int)
    reads a
  {
    a.Length == m + 1 && m >= 2 && a[m] == -1 && LooseInto(a[..m], n, m)
  }

  lemma ValidLoose(a: array<int>, n: int, m: int)
    requires Valid(a, n, m)
    ensures LooseValid(a, n, m)
  {
  }

  /** Step H2 of the source decides whether to leave the tweaking of `a[0]`
      and `a[1]` with `a[1] > a[0] - 1`; Knuth's step H2 leaves it with
      `a[1] >= a[0] - 1`. */
  predicate LeavesTweakAsWritten(a0: int, a1: int) {
    a1 > a0 - 1
  }

  predicate LeavesTweak(a0: int, a1: int) {
    a1 >= a0 - 1
  }

  /** Step H3: move one unit from the first part to the second. */
  function Tweak(p: seq<int>): (q: seq<int>)
    requires |p| >= 2
    ensures |q| == |p| && q[0] == p[0] - 1 && q[1] == p[1] + 1 && q[2..] == p[2..]
  {
    p[0 := p[0] - 1][1 := p[1] + 1]
  }

  /** With the source's test, the partition `[2, 1]` (visited first for `n ==
      3`, `m == 2`) is tweaked into `[1, 2]`, which is visited next but is not
      non-increasing. */
  lemma AsWrittenVisitsUnordered()
    ensures IsPartitionInto([2, 1], 3, 2)
    ensures !LeavesTweakAsWritten(2, 1) && Tweak([2, 1]) == [1, 2]
    ensures !IsPartitionInto([1, 2], 3, 2)
  {
    assert Sum([2, 1]) == 2 + Sum([1]);
  }

  /** With Knuth's test, a tweak keeps a partition and moves up in colex order. */
  lemma TweakKeepsPartition(p: seq<int>, n: int, m: int)
    requires m >= 2 && IsPartitionInto(p, n, m) && !LeavesTweak(p[0], p[1])
    ensures IsPartitionInto(Tweak(p), n, m) && ColexLess(p, Tweak(p))
  {
    var q := Tweak(p);
    SumUpdate(p, 0, -1);
    SumUpdate(p[0 := p[0] - 1], 1, 1);
    assert q[2..] == p[2..];
  }

  /** The termination measure of the visiting loop: the parts after the first
      as a base-`n + 1` number, which grows in colex order. */
  ghost function Progress(a: array<int>, n: int, m: int): int
    reads a
    requires a.Length == m + 1 && m >= 1
  {
    Enc(a[1..m], n + 1)
  }

  lemma ProgressBounds(a: array<int>, n: int, m: int)
    requires LooseValid(a, n, m)
    ensures 0 <= Progress(a, n, m) < Pow(n + 1, m - 1)
  {
    PartsAreDigits(a[..m], n, m);
    assert a[1..m] == a[..m][1..];
    EncBound(a[1..m], n + 1);
  }

  lemma PartsAreDigits(p: seq<int>, n: int, m: int)
    requires m >= 1 && |p| == m && Sum(p) == n && forall i :: 0 <= i < |p| ==> p[i] >= 1
    ensures Digits(p, n + 1) && Digits(p[1..], n + 1)
  {
    forall i | 0 <= i < |p| ensures p[i] <= n {
      SumBoundsElement(p, i);
    }
  }

  /** Colex growth of the partition in the array is growth of `Progress`. */
  lemma ProgressGrows(p: seq<int>, q: seq<int>, n: int, m: int)
    requires IsPartitionInto(p, n, m) && IsPartitionInto(q, n, m) && m >= 2
    requires ColexLess(p, q)
    requires p[1..] != q[1..]
    ensures Enc(p[1..], n + 1) < Enc(q[1..], n + 1)
  {
    PartsAreDigits(p, n, m);
    PartsAreDigits(q, n, m);
    var j :| 0 <= j < |p| && p[j] < q[j] && p[j + 1..] == q[j + 1..];
    assert j >= 1;
    TailGrows(p, q, n + 1, j);
  }

  /** Lists that differ last at a position `j >= 1` compare on `Enc` of
      their tails as at position `j`. */
  lemma TailGrows(p: seq<int>, q: seq<int>, b: int, j: int)
    requires b >= 1 && |p| == |q| && 1 <= j < |p| && Digits(p[1..], b) && Digits(q[1..], b)
    requires p[j] < q[j] && p[j + 1..] == q[j + 1..]
    ensures Enc(p[1..], b) < Enc(q[1..], b)
  {
    assert p[1..][j..] == p[j + 1..] && q[1..][j..] == q[j + 1..];
    EncIncreases(p[1..], q[1..], b, j - 1);
  }

  /** The first partition visited: `[n - m + 1, 1, ..., 1]`. */
  function First(n: int, m: nat): (p: seq<int>)
    requires 1 <= m <= n
    ensures IsPartitionInto(p, n, m)
  {
    if m == 1 then [n] else FirstRest(n, m)
  }

  function FirstRest(n: int, m: nat): (p: seq<int>)
    requires 2 <= m <= n
    ensures IsPartitionInto(p, n, m) && p[0] == n - m + 1 && forall i :: 1 <= i < m ==> p[i] == 1
  {
    var p := [n - m + 1] + Ones(m - 1);
    assert p[1..] == Ones(m - 1);
    p
  }

  function Ones(k: nat): (p: seq<int>)
    ensures |p| == k && Sum(p) == k && forall i :: 0 <= i < k ==> p[i] == 1
  {
    if k == 0 then [] else [1] + Ones(k - 1)
  }

  lemma SumTwo(s: seq<int>)
    requires |s| == 2
    ensures Sum(s) == s[0] + s[1]
  {
    assert s[1..][1..] == [];
    assert Sum(s[1..]) == s[1] + Sum(s[1..][1..]);
  }

  /** Step H4: `j` is the first position from 2 on whose part is below
      `a[0] - 1` (at worst the sentinel's position `m`), and `s` is the sum of
      the parts before it, less one. */
  method FindJ(a: array<int>, n: int, m: int) returns (j: int, s: int)
    requires LooseValid(a, n, m) && LeavesTweak(a[0], a[1])
    ensures 2 <= j <= m
    ensures forall i :: 1 <= i < j ==> a[i] >= a[0] - 1
    ensures j < m ==> a[j] < a[0] - 1
    ensures s == Sum(a[..j]) - 1
  {
    j := 2;
    s := a[0] + a[1] - 1;
    SumTwo(a[..2]);
    while a[j] >= a[0] - 1
      invariant 2 <= j <= m
      invariant forall i :: 1 <= i < j ==> a[i] >= a[0] - 1
      invariant s == Sum(a[..j]) - 1
      decreases m - j
    {
      assert a[..j + 1] == a[..j] + [a[j]];
      SumAppend(a[..j], [a[j]]);
      s := s + a[j];
      j := j + 1;
    }
  }

  /** The array during step H6: the untouched parts `p[..k+1]`, then the
      copies of the new value `x` up to position `j`, then the untouched
      tail. */
  function Filling(p: seq<int>, k: nat, j: nat, x: int): seq<int>
    requires k < j < |p|
  {
    p[..k + 1] + Repeat(x, j - k) + p[j + 1..]
  }

  lemma FillingStep(p: seq<int>, k: nat, j: nat, x: int)
    requires 0 < k < j < |p|
    ensures Filling(p, k, j, x)[k := x] == Filling(p, k - 1, j, x)
  {
    var r, t := Repeat(x, j - k), p[j + 1..];
    assert Repeat(x, j - k + 1) == [x] + r;
    assert p[..k + 1] == p[..k] + [p[k]];
    assert (p[..k] + [p[k]] + r + t)[k := x] == p[..k] + [x] + r + t;
  }

  lemma FillingLast(p: seq<int>, j: nat, x: int, y: int)
    requires 0 < j < |p|
    ensures Filling(p, 0, j, x)[0 := y] == [y] + Repeat(x, j) + p[j + 1..]
  {
    var r, t := Repeat(x, j), p[j + 1..];
    assert p[..1] == [p[0]];
    assert ([p[0]] + r + t)[0 := y] == [y] + r + t;
  }

  lemma FillingSum(p: seq<int>, j: nat, x: int, y: int)
    requires 0 < j < |p|
    ensures Sum([y] + Repeat(x, j) + p[j + 1..]) == y + j * x + Sum(p[j + 1..])
  {
    SumAppend([y] + Repeat(x, j), p[j + 1..]);
    SumAppend([y], Repeat(x, j));
    assert Sum([y]) == y + Sum([y][1..]);
  }

  /** Steps H5 and H6: raise `a[j]` by one, give `a[1..j-1]` the same value and
      put what is left over into `a[0]`. */
  method IncreaseAndFill(a: array<int>, n: int, m: int, j: int, s: int)
    requires LooseValid(a, n, m)
    requires 2 <= j < m
    requires forall i :: 1 <= i < j ==> a[i] >= a[0] - 1
    requires a[j] < a[0] - 1
    requires s == Sum(a[..j]) - 1
    modifies a
    ensures Valid(a, n, m)
    ensures forall i :: 1 <= i <= j ==> a[i] == old(a[j]) + 1
    ensures forall i :: j < i <= m ==> a[i] == old(a[i])
  {
    ghost var p := a[..m];
    SumSplit(p, j);
    assert p[..j] == a[..j];
    var x := a[j] + 1;
    a[j] := x;
    assert a[..m] == Filling(p, j - 1, j, x) by {
      assert p[..j - 1 + 1] == p[..j];
    }
    var t := FillBefore(a, m, j, x, s, p);
    assert t + j * x + Sum(p[j + 1..]) == n;
    FillIsPartition(p, n, m, j, x, t);
    FillShape(p, j, x, t);
    forall i | 1 <= i <= j ensures a[i] == x {
      assert a[i] == a[..m][i];
    }
    forall i | j < i < m ensures a[i] == p[i] {
      assert a[i] == a[..m][i];
    }
  }

  lemma FillShape(p: seq<int>, j: int, x: int, t: int)
    requires 0 < j < |p|
    ensures var q := [t] + Repeat(x, j) + p[j + 1..];
      |q| == |p| && q[0] == t && (forall i :: 1 <= i <= j ==> q[i] == x) &&
      forall i :: j < i < |p| ==> q[i] == p[i]
  {
    var q := [t] + Repeat(x, j) + p[j + 1..];
    forall i | j < i < |p| ensures q[i] == p[i] {
      assert q[i] == p[j + 1..][i - j - 1];
    }
  }

  /** Step H6: give `a[1..j-1]` the value `x` of `a[j]`, from right to left,
      and put what is left of `s` into `a[0]`. */
  method FillBefore(a: array<int>, m: int, j: int, x: int, s: int, ghost p: seq<int>) returns (t: int)
    requires |p| == m && a.Length == m + 1 && 1 < j < m
    requires a[..m] == Filling(p, j - 1, j, x)
    requires s == Sum(p[..j]) - 1
    requires forall i :: 1 <= i < j ==> p[i] >= x
    modifies a
    ensures a[..m] == [t] + Repeat(x, j) + p[j + 1..] && a[m] == old(a[m])
    ensures t == s - (j - 1) * x && t >= p[0] - 1
  {
    var k := j - 1;
    t := s;
    while k > 0
      invariant 0 <= k < j
      invariant a[m] == old(a[m])
      invariant a[..m] == Filling(p, k, j, x)
      invariant t == s - (j - 1 - k) * x
      invariant t >= Sum(p[..k + 1]) - 1
    {
      SumSplit(p, k);
      ghost var before := a[..m];
      FillingStep(p, k, j, x);
      a[k] := x;
      assert a[..m] == before[k := x];
      t := t - x;
      k := k - 1;
    }
    ghost var before := a[..m];
    FillingLast(p, j, x, t);
    a[0] := t;
    assert a[..m] == before[0 := t];
    assert p[..1] == [p[0]];
  }

  lemma FillIsPartition(p: seq<int>, n: int, m: int, j: int, x: int, t: int)
    requires LooseInto(p, n, m) && 2 <= j < m
    requires x == p[j] + 1 && x <= p[0] - 1 && t >= p[0] - 1
    requires t + j * x + Sum(p[j + 1..]) == n
    ensures IsPartitionInto([t] + Repeat(x, j) + p[j + 1..], n, m)
  {
    var q := [t] + Repeat(x, j) + p[j + 1..];
    FillingSum(p, j, x, t);
    forall i | j < i < m ensures q[i] == p[i] {
      assert q[i] == p[j + 1..][i - j - 1];
    }
  }

  /** `partitions_with_count(n, m)` with Knuth's test in step H2: every list it
      visits is a partition of `n` into `m` positive parts, largest first; the
      first is `[n - m + 1, 1, ..., 1]` and each is larger than the one before
      in colex order, so none is visited twice. The source needs `m >= 2`
      (the sentinel is overwritten otherwise) and `n >= m`. */
  method PartitionsWithCount(n: int, m: int) returns (parts: seq<seq<int>>)
    requires 2 <= m <= n
    ensures forall p :: p in parts ==> IsPartitionInto(p, n, m)
    ensures |parts| >= 1 && parts[0] == First(n, m)
    ensures forall i, k :: 0 <= i < k < |parts| ==> ColexLess(parts[i], parts[k])
    ensures forall p :: IsPartitionInto(p, n, m) ==> p in parts
  {
    var a := Initialise(n, m);
    parts := [];
    FirstIsLeast(n, m);
    while true
      invariant Valid(a, n, m)
      invariant Visited(parts, n, m, a[..m])
      invariant CoversBelow(parts, n, m, a[..m])
      decreases Pow(n + 1, m - 1) - Progress(a, n, m)
    {
      ValidLoose(a, n, m);
      ProgressBounds(a, n, m);
      parts := VisitAndTweak(a, n, m, parts);
      var done := FindAndFill(a, n, m, parts);
      if done {
        return;
      }
    }
  }

  /** Steps H4 to H6: find `j`; unless it is the sentinel's position, raise
      `a[j]` and refill the parts before it, which moves the array's partition
      after everything visited. */
  method FindAndFill(a: array<int>, n: int, m: int, parts: seq<seq<int>>) returns (done: bool)
    requires 2 <= m <= n && Valid(a, n, m) && Sorted(parts, n, m) && parts[|parts| - 1] == a[..m]
    requires LeavesTweak(a[0], a[1]) && CoversBelow(parts, n, m, a[..m])
    modifies a
    ensures Valid(a, n, m)
    ensures done ==> a[..] == old(a[..]) && forall p :: IsPartitionInto(p, n, m) ==> p in parts
    ensures !done ==> Visited(parts, n, m, a[..m]) && Progress(a, n, m) > old(Progress(a, n, m))
    ensures !done ==> CoversBelow(parts, n, m, a[..m])
  {
    // H4
    ValidLoose(a, n, m);
    var j, s := FindJ(a, n, m);
    ghost var p := a[..m];
    // H5
    if j >= m {
      LastHasNoNext(p, n, m);
      CoversAll(parts, n, m, p);
      return true;
    }
    assert p[1..] == old(a[1..m]);
    IncreaseAndFill(a, n, m, j, s);
    FillStep(parts, n, m, p, a[..m], j);
    FillNext(p, a[..m], n, m, j);
    CoversStep(parts, n, m, p, a[..m]);
    assert a[..m][1..] == a[1..m];
    return false;
  }

  /** Step H1: `a = [n - m + 1, 1, ..., 1, -1]`. */
  method Initialise(n: int, m: int) returns (a: array<int>)
    requires 2 <= m <= n
    ensures fresh(a) && Valid(a, n, m) && a[..m] == First(n, m)
  {
    a := new int[m + 1];
    a[0] := n - m + 1;
    var i := 1;
    while i < m
      invariant 1 <= i <= m && a[0] == n - m + 1
      invariant forall k :: 1 <= k < i ==> a[k] == 1
    {
      a[i] := 1;
      i := i + 1;
    }
    a[m] := -1;
    assert a[..m] == First(n, m);
  }

  /** Steps H5 and H6 move the array's partition up in colex order. */
  lemma FillStep(parts: seq<seq<int>>, n: int, m: int, p: seq<int>, q: seq<int>, j: int)
    requires 2 <= m <= n && Sorted(parts, n, m) && parts[|parts| - 1] == p
    requires IsPartitionInto(p, n, m) && IsPartitionInto(q, n, m) && 2 <= j < m
    requires forall i :: 1 <= i <= j ==> q[i] == p[j] + 1
    requires forall i :: j < i < m ==> q[i] == p[i]
    ensures Visited(parts, n, m, q)
    ensures Enc(p[1..], n + 1) < Enc(q[1..], n + 1)
  {
    assert ColexLess(p, q) by {
      assert p[j] < q[j];
      assert p[j + 1..] == q[j + 1..];
    }
    MoveOn(parts, n, m, p, q);
    assert p[1..][j - 1] != q[1..][j - 1];
    ProgressGrows(p, q, n, m);
  }

  /** Steps H2 and H3: visit the array's partition and, while Knuth's test
      allows, move one unit from the first part to the second and visit
      again. */
  method VisitAndTweak(a: array<int>, n: int, m: int, parts0: seq<seq<int>>) returns (parts: seq<seq<int>>)
    requires 2 <= m <= n && Valid(a, n, m) && Visited(parts0, n, m, a[..m]) && CoversBelow(parts0, n, m, a[..m])
    modifies a
    ensures Valid(a, n, m) && Sorted(parts, n, m) && parts[|parts| - 1] == a[..m]
    ensures LeavesTweak(a[0], a[1]) && CoversBelow(parts, n, m, a[..m])
    ensures Progress(a, n, m) >= old(Progress(a, n, m))
  {
    parts := parts0;
    while true
      invariant Valid(a, n, m)
      invariant Visited(parts, n, m, a[..m]) && CoversBelow(parts, n, m, a[..m])
      invariant Progress(a, n, m) >= old(Progress(a, n, m))
      decreases a[0] - a[1]
    {
      // H2
      VisitOne(parts, n, m, a[..m]);
      parts := parts + [a[..m]];
      if LeavesTweak(a[0], a[1]) {
        return;
      }
      // H3
      ApplyTweak(a, n, m, parts);
    }
  }

  /** Step H3 on the array: move one unit from `a[0]` to `a[1]`. */
  method ApplyTweak(a: array<int>, n: int, m: int, parts: seq<seq<int>>)
    requires 2 <= m <= n && Valid(a, n, m) && Sorted(parts, n, m) && parts[|parts| - 1] == a[..m]
    requires !LeavesTweak(a[0], a[1]) && CoversBelow(parts, n, m, a[..m])
    modifies a
    ensures Valid(a, n, m) && Visited(parts, n, m, a[..m]) && CoversBelow(parts, n, m, a[..m])
    ensures a[..m] == Tweak(old(a[..m]))
    ensures Progress(a, n, m) > old(Progress(a, n, m))
  {
    ghost var p := a[..m];
    assert p[1..] == old(a[1..m]);
    TweakStep(parts, n, m, p);
    a[0], a[1] := a[0] - 1, a[1] + 1;
    assert a[..m] == Tweak(p);
    assert a[1..m] == Tweak(p)[1..];
  }

  /** A tweak after a visit keeps the array's partition after everything
      visited, and makes progress. */
  lemma TweakStep(parts: seq<seq<int>>, n: int, m: int, p: seq<int>)
    requires 2 <= m <= n && Sorted(parts, n, m) && parts[|parts| - 1] == p
    requires IsPartitionInto(p, n, m) && !LeavesTweak(p[0], p[1]) && CoversBelow(parts, n, m, p)
    ensures IsPartitionInto(Tweak(p), n, m) && Visited(parts, n, m, Tweak(p)) && CoversBelow(parts, n, m, Tweak(p))
    ensures Enc(p[1..], n + 1) < Enc(Tweak(p)[1..], n + 1)
  {
    TweakNext(p, n, m);
    CoversStep(parts, n, m, p, Tweak(p));
    TweakKeepsPartition(p, n, m);
    MoveOn(parts, n, m, p, Tweak(p));
    assert p[1..][0] != Tweak(p)[1..][0];
    ProgressGrows(p, Tweak(p), n, m);
  }

  /** The visited lists start with `First(n, m)`, are partitions of `n` into
      `m` parts, and grow strictly in colex order. */
  ghost predicate Sorted(parts: seq<seq<int>>, n: int, m: int)
    requires 1 <= m <= n
  {
    |parts| >= 1 && parts[0] == First(n, m) &&
    (forall p :: p in parts ==> IsPartitionInto(p, n, m)) &&
    (forall i, k :: 0 <= i < k < |parts| ==> ColexLess(parts[i], parts[k]))
  }

  /** The state `q` of the array comes after everything visited so far. */
  ghost predicate Visited(parts: seq<seq<int>>, n: int, m: int, q: seq<int>)
    requires 1 <= m <= n
  {
    (parts == [] && q == First(n, m)) ||
    (Sorted(parts, n, m) && forall i :: 0 <= i < |parts| ==> ColexLess(parts[i], q))
  }

  lemma VisitOne(parts: seq<seq<int>>, n: int, m: int, q: seq<int>)
    requires 1 <= m <= n && Visited(parts, n, m, q) && IsPartitionInto(q, n, m)
    ensures Sorted(parts + [q], n, m)
  {
    var ps := parts + [q];
    forall i, k | 0 <= i < k < |ps| ensures ColexLess(ps[i], ps[k]) {
      if k < |parts| {
        assert ps[i] == parts[i] && ps[k] == parts[k];
      }
    }
  }

  lemma MoveOn(parts: seq<seq<int>>, n: int, m: int, q: seq<int>, r: seq<int>)
    requires 1 <= m <= n && Sorted(parts, n, m) && parts[|parts| - 1] == q && ColexLess(q, r)
    ensures Visited(parts, n, m, r)
  {
    AllBelow(parts, q, r);
  }

  /** Every visited list is below the last one, hence below a successor of it. */
  lemma AllBelow(parts: seq<seq<int>>, p: seq<int>, q: seq<int>)
    requires |parts| >= 1 && parts[|parts| - 1] == p
    requires forall i, k :: 0 <= i < k < |parts| ==> ColexLess(parts[i], parts[k])
    requires ColexLess(p, q)
    ensures forall i :: 0 <= i < |parts| ==> ColexLess(parts[i], q)
  {
    forall i | 0 <= i < |parts| ensures ColexLess(parts[i], q) {
      if i < |parts| - 1 {
        ColexTrans(parts[i], p, q);
      }
    }
  }

  /** The lists visited so far with the source's test in step H2: the first
      is `First(n, m)`, all are `LooseInto` lists, and each one the test
      does not leave is followed by its `Tweak`. */
  ghost predicate AsWrittenPrefix(parts: seq<seq<int>>, n: int, m: int)
    requires 2 <= m <= n
  {
    |parts| >= 1 && parts[0] == First(n, m) &&
    (forall i :: 0 <= i < |parts| ==> LooseInto(parts[i], n, m)) &&
    forall i :: 0 <= i < |parts| - 1 && !LeavesTweakAsWritten(parts[i][0], parts[i][1]) ==> parts[i + 1] == Tweak(parts[i])
  }

  /** The whole output with the source's test: a prefix as above whose last
      list is one the test leaves. */
  ghost predicate AsWrittenTrace(parts: seq<seq<int>>, n: int, m: int)
    requires 2 <= m <= n
  {
    AsWrittenPrefix(parts, n, m) && LeavesTweakAsWritten(parts[|parts| - 1][0], parts[|parts| - 1][1])
  }

  /** `q` is what the source visits next after `parts`. */
  ghost predicate AsWrittenNext(parts: seq<seq<int>>, n: int, m: int, q: seq<int>)
    requires 2 <= m <= n
  {
    (parts == [] && q == First(n, m)) ||
    (AsWrittenPrefix(parts, n, m) &&
     (!LeavesTweakAsWritten(parts[|parts| - 1][0], parts[|parts| - 1][1]) ==> q == Tweak(parts[|parts| - 1])))
  }

  lemma VisitAsWritten(parts: seq<seq<int>>, n: int, m: int, q: seq<int>)
    requires 2 <= m <= n && AsWrittenNext(parts, n, m, q) && LooseInto(q, n, m)
    ensures AsWrittenPrefix(parts + [q], n, m)
  {
    var ps := parts + [q];
    if parts == [] {
      assert ps == [q];
    } else {
      assert ps[0] == parts[0];
      forall i | 0 <= i < |ps| ensures LooseInto(ps[i], n, m) {
        if i < |parts| {
          assert ps[i] == parts[i];
        }
      }
      forall i | 0 <= i < |ps| - 1 && !LeavesTweakAsWritten(ps[i][0], ps[i][1])
        ensures ps[i + 1] == Tweak(ps[i])
      {
        assert ps[i] == parts[i];
        if i + 1 < |parts| {
          assert ps[i + 1] == parts[i + 1];
        }
      }
    }
  }

  /** Step H3 where the source's test does not leave: the list stays a
      `LooseInto` list and `Progress` grows. */
  lemma TweakGrows(p: seq<int>, n: int, m: int)
    requires LooseInto(p, n, m) && !LeavesTweakAsWritten(p[0], p[1])
    ensures LooseInto(Tweak(p), n, m) && Enc(p[1..], n + 1) < Enc(Tweak(p)[1..], n + 1)
  {
    var q := Tweak(p);
    SumUpdate(p, 0, -1);
    SumUpdate(p[0 := p[0] - 1], 1, 1);
    forall i, k | 1 <= i < k < |q| ensures q[i] >= q[k] {
      assert p[1] >= p[k];
    }
    PartsAreDigits(p, n, m);
    PartsAreDigits(q, n, m);
    assert p[1..][1..] == p[2..] == q[2..] == q[1..][1..];
    EncIncreases(p[1..], q[1..], n + 1, 0);
  }

  /** Steps H5 and H6 make `Progress` grow. */
  lemma FillGrows(p: seq<int>, q: seq<int>, n: int, m: int, j: int)
    requires LooseInto(p, n, m) && LooseInto(q, n, m) && 2 <= j < m
    requires q[j] == p[j] + 1 && forall i :: j < i < m ==> q[i] == p[i]
    ensures Enc(p[1..], n + 1) < Enc(q[1..], n + 1)
  {
    PartsAreDigits(p, n, m);
    PartsAreDigits(q, n, m);
    assert p[1..][j..] == q[1..][j..] by {
      forall k | 0 <= k < m - 1 - j ensures p[1..][j..][k] == q[1..][j..][k] {
        assert p[1..][j..][k] == p[j + 1 + k];
      }
    }
    EncIncreases(p[1..], q[1..], n + 1, j - 1);
  }

  /** `partitions_with_count(n, m)` as written, with `a[1] > a[0] - 1` in
      step H2: it visits `First(n, m)` first, tweaks every list the test does
      not leave, and stops at one the test leaves. */
  method PartitionsWithCountAsWritten(n: int, m: int) returns (parts: seq<seq<int>>)
    requires 2 <= m <= n
    ensures AsWrittenTrace(parts, n, m)
  {
    var a := Initialise(n, m);
    ValidLoose(a, n, m);
    parts := [];
    while true
      invariant LooseValid(a, n, m) && AsWrittenNext(parts, n, m, a[..m])
      decreases Pow(n + 1, m - 1) - Progress(a, n, m)
    {
      ProgressBounds(a, n, m);
      ghost var g := Progress(a, n, m);
      parts := VisitAndTweakAsWritten(a, n, m, parts);
      // H4
      var j, s := FindJ(a, n, m);
      // H5
      if j >= m {
        return;
      }
      ghost var p := a[..m];
      assert p[1..] == a[1..m];
      IncreaseAndFill(a, n, m, j, s);
      ValidLoose(a, n, m);
      FillGrows(p, a[..m], n, m, j);
      assert a[..m][1..] == a[1..m];
    }
  }

  /** Steps H2 and H3 as written: visit, and tweak while the source's test
      does not leave. */
  method VisitAndTweakAsWritten(a: array<int>, n: int, m: int, parts0: seq<seq<int>>) returns (parts: seq<seq<int>>)
    requires 2 <= m <= n && LooseValid(a, n, m) && AsWrittenNext(parts0, n, m, a[..m])
    modifies a
    ensures LooseValid(a, n, m) && AsWrittenTrace(parts, n, m) && parts[|parts| - 1] == a[..m]
    ensures Progress(a, n, m) >= old(Progress(a, n, m))
  {
    parts := parts0;
    while true
      invariant LooseValid(a, n, m) && AsWrittenNext(parts, n, m, a[..m])
      invariant Progress(a, n, m) >= old(Progress(a, n, m))
      decreases a[0] - a[1]
    {
      // H2
      VisitAsWritten(parts, n, m, a[..m]);
      parts := parts + [a[..m]];
      if LeavesTweakAsWritten(a[0], a[1]) {
        return;
      }
      // H3
      ApplyTweakAsWritten(a, n, m, parts);
    }
  }

  /** Step H3 on the array after a visit the source's test does not leave. */
  method ApplyTweakAsWritten(a: array<int>, n: int, m: int, parts: seq<seq<int>>)
    requires 2 <= m <= n && LooseValid(a, n, m) && AsWrittenPrefix(parts, n, m) && parts[|parts| - 1] == a[..m]
    requires !LeavesTweakAsWritten(a[0], a[1])
    modifies a
    ensures LooseValid(a, n, m) && AsWrittenNext(parts, n, m, a[..m])
    ensures a[..m] == Tweak(old(a[..m])) && Progress(a, n, m) > old(Progress(a, n, m))
  {
    ghost var p := a[..m];
    assert p[1..] == a[1..m];
    TweakGrows(p, n, m);
    a[0], a[1] := a[0] - 1, a[1] + 1;
    assert a[..m] == Tweak(p);
    assert a[1..m] == Tweak(p)[1..];
  }

  /** With the source's test, `partitions_with_count(3, 2)` visits `[1, 2]`,
      which is not a partition with its parts largest first. */
  lemma AsWrittenVisitsOneTwo(parts: seq<seq<int>>)
    requires AsWrittenTrace(parts, 3, 2)
    ensures [1, 2] in parts && !IsPartitionInto([1, 2], 3, 2)
  {
    assert First(3, 2) == [2, 1];
    AsWrittenVisitsUnordered();
    assert parts[1] == Tweak(parts[0]);
  }

  /** Every partition below `q` in colex order has been visited. */
  ghost predicate CoversBelow(parts: seq<seq<int>>, n: int, m: int, q: seq<int>) {
    forall r :: IsPartitionInto(r, n, m) && ColexLess(r, q) ==> r in parts
  }

  /** `q'` comes straight after `q` in colex order among the partitions of
      `n` into `m` parts. */
  ghost predicate NextAfter(q: seq<int>, q': seq<int>, n: int, m: int) {
    forall r :: IsPartitionInto(r, n, m) && ColexLess(q, r) ==> r == q' || ColexLess(q', r)
  }

  lemma ColexIrreflexive(p: seq<int>)
    ensures !ColexLess(p, p)
  {
  }

  /** Colex order is total on lists of one length. */
  lemma ColexTotal(p: seq<int>, q: seq<int>)
    requires |p| == |q| && p != q
    ensures ColexLess(p, q) || ColexLess(q, p)
  {
    var j := |p| - 1;
    assert p[..j + 1] == p && q[..j + 1] == q;
    while p[j] == q[j]
      invariant 0 <= j < |p| && p[j + 1..] == q[j + 1..] && p[..j + 1] != q[..j + 1]
      decreases j
    {
      assert p[..j + 1] == p[..j] + [p[j]] && q[..j + 1] == q[..j] + [q[j]];
      assert p[j..] == [p[j]] + p[j + 1..] && q[j..] == [q[j]] + q[j + 1..];
      j := j - 1;
    }
    if p[j] < q[j] {
      assert ColexLess(p, q) by {
        assert p[j] < q[j] && p[j + 1..] == q[j + 1..];
      }
    } else {
      assert ColexLess(q, p) by {
        assert q[j] < p[j] && q[j + 1..] == p[j + 1..];
      }
    }
  }

  /** `First(n, m)` is the least partition in colex order. */
  lemma FirstIsLeast(n: int, m: int)
    requires 2 <= m <= n
    ensures forall r :: IsPartitionInto(r, n, m) ==> !ColexLess(r, First(n, m))
    ensures CoversBelow([], n, m, First(n, m))
  {
    var f := First(n, m);
    forall r | IsPartitionInto(r, n, m) ensures !ColexLess(r, f) {
      SameTail(r, f, n, m);
    }
  }

  /** A partition that leaves everything after position `k` as in `p` and
      raises position `k` is not one, while the parts of `p` up to `k` are
      all at least `p[0] - 1`: the parts up to `k` would sum to more. */
  lemma NoLowRise(p: seq<int>, r: seq<int>, n: int, m: int, k: int)
    requires IsPartitionInto(p, n, m) && IsPartitionInto(r, n, m) && 1 <= k < m
    requires forall i :: 1 <= i <= k ==> p[i] >= p[0] - 1
    ensures !(p[k] < r[k] && p[k + 1..] == r[k + 1..])
  {
    SumCut(p, k + 1);
    SumCut(r, k + 1);
    SumSplit(p, k);
    PrefixAtMost(p, n, m, k);
    RiseBound(k, p[0], p[k]);
    if p[k] < r[k] && p[k + 1..] == r[k + 1..] {
      PrefixAtLeast(r, n, m, k, p[k] + 1);
    }
  }

  /** The first `k` parts of a partition are at most `k` times the first. */
  lemma PrefixAtMost(p: seq<int>, n: int, m: int, k: int)
    requires IsPartitionInto(p, n, m) && 0 <= k <= m && m >= 1
    ensures Sum(p[..k]) <= k * p[0]
  {
    var ps, top := p[..k], Repeat(p[0], k);
    forall i | 0 <= i < k ensures ps[i] <= top[i] {
    }
    SumMonotone(ps, top);
  }

  /** The first `k + 1` parts of a partition are at least `k + 1` times
      a bound of part `k`. */
  lemma PrefixAtLeast(r: seq<int>, n: int, m: int, k: int, x: int)
    requires IsPartitionInto(r, n, m) && 0 <= k < m && r[k] >= x
    ensures Sum(r[..k + 1]) >= (k + 1) * x
  {
    var low, rs := Repeat(x, k + 1), r[..k + 1];
    forall i | 0 <= i < k + 1 ensures low[i] <= rs[i] {
    }
    SumMonotone(low, rs);
  }

  lemma RiseBound(k: int, a: int, b: int)
    requires k >= 1 && a - 1 <= b
    ensures (k + 1) * (b + 1) > k * a + b
  {
    MulMono(k, a - 1, b);
    assert (k + 1) * (b + 1) == k * b + k + b + 1;
    assert k * (a - 1) == k * a - k;
  }

  /** Two partitions that agree after position `0` are equal. */
  lemma SameTail(p: seq<int>, r: seq<int>, n: int, m: int)
    requires IsPartitionInto(p, n, m) && IsPartitionInto(r, n, m) && m >= 1
    ensures p[1..] == r[1..] ==> p == r
  {
    assert Sum(p) == p[0] + Sum(p[1..]) && Sum(r) == r[0] + Sum(r[1..]);
    if p[1..] == r[1..] {
      assert p == [p[0]] + p[1..] && r == [r[0]] + r[1..];
    }
  }

  /** Step H3 moves to the next partition in colex order. */
  lemma TweakNext(p: seq<int>, n: int, m: int)
    requires m >= 2 && IsPartitionInto(p, n, m) && !LeavesTweak(p[0], p[1])
    ensures NextAfter(p, Tweak(p), n, m)
  {
    var t := Tweak(p);
    forall r | IsPartitionInto(r, n, m) && ColexLess(p, r) ensures r == t || ColexLess(t, r) {
      var k :| 0 <= k < |p| && p[k] < r[k] && p[k + 1..] == r[k + 1..];
      SameTail(p, r, n, m);
      if k == 1 {
        TweakNextAtOne(p, r, n, m);
      } else if k >= 2 {
        assert t[k + 1..] == t[2..][k - 1..] && p[k + 1..] == p[2..][k - 1..];
        assert t[k] < r[k] && t[k + 1..] == r[k + 1..];
      }
    }
  }

  /** A partition after `p` that differs from it last at position `1` is
      `Tweak(p)` or comes after it. */
  lemma TweakNextAtOne(p: seq<int>, r: seq<int>, n: int, m: int)
    requires m >= 2 && IsPartitionInto(p, n, m) && IsPartitionInto(r, n, m)
    requires p[1] < r[1] && p[2..] == r[2..]
    ensures r == Tweak(p) || ColexLess(Tweak(p), r)
  {
    var t := Tweak(p);
    assert r[1..][1..] == r[2..] && p[1..][1..] == p[2..];
    assert Sum(r) == r[0] + r[1] + Sum(r[2..]);
    assert Sum(p) == p[0] + p[1] + Sum(p[2..]);
    if r[1] == p[1] + 1 {
      assert r == [r[0], r[1]] + r[2..] && t == [t[0], t[1]] + t[2..];
    } else {
      assert t[1] < r[1] && t[2..] == r[2..];
    }
  }

  /** Steps H4 to H6 move to the next partition in colex order: `q` raises
      `p[j]` by one, gives its value to the parts before it and the rest
      to `q[0]`. */
  lemma FillNext(p: seq<int>, q: seq<int>, n: int, m: int, j: int)
    requires IsPartitionInto(p, n, m) && IsPartitionInto(q, n, m) && 2 <= j < m
    requires forall i :: 1 <= i < j ==> p[i] >= p[0] - 1
    requires forall i :: 1 <= i <= j ==> q[i] == p[j] + 1
    requires forall i :: j < i < m ==> q[i] == p[i]
    ensures NextAfter(p, q, n, m)
  {
    assert q[j + 1..] == p[j + 1..];
    forall r | IsPartitionInto(r, n, m) && ColexLess(p, r) ensures r == q || ColexLess(q, r) {
      var k :| 0 <= k < |p| && p[k] < r[k] && p[k + 1..] == r[k + 1..];
      SameTail(p, r, n, m);
      if 1 <= k < j {
        NoLowRise(p, r, n, m, k);
      } else if k > j {
        assert q[k + 1..] == q[j + 1..][k - j..] && p[k + 1..] == p[j + 1..][k - j..];
        assert q[k] < r[k] && q[k + 1..] == r[k + 1..];
      } else if k == j && q[j] < r[j] {
        assert q[j] < r[j] && q[j + 1..] == r[j + 1..];
      } else if k == j && r != q {
        forall i | j < i < m ensures r[i] == q[i] {
          assert r[i] == r[j + 1..][i - j - 1] && q[i] == q[j + 1..][i - j - 1];
        }
        ColexTotal(q, r);
        if ColexLess(r, q) {
          var k' :| 0 <= k' < |r| && r[k'] < q[k'] && r[k' + 1..] == q[k' + 1..];
          SameTail(r, q, n, m);
        }
      }
    }
  }

  /** When every part from position `1` on is at least `p[0] - 1`, no
      partition comes after `p`. */
  lemma LastHasNoNext(p: seq<int>, n: int, m: int)
    requires m >= 2 && IsPartitionInto(p, n, m)
    requires forall i :: 1 <= i < m ==> p[i] >= p[0] - 1
    ensures forall r :: IsPartitionInto(r, n, m) ==> !ColexLess(p, r)
  {
    forall r | IsPartitionInto(r, n, m) ensures !ColexLess(p, r) {
      if ColexLess(p, r) {
        var k :| 0 <= k < |p| && p[k] < r[k] && p[k + 1..] == r[k + 1..];
        SameTail(p, r, n, m);
        if k >= 1 {
          NoLowRise(p, r, n, m, k);
        }
      }
    }
  }

  /** Moving on to the next partition keeps every one below visited. */
  lemma CoversStep(parts: seq<seq<int>>, n: int, m: int, q: seq<int>, q': seq<int>)
    requires CoversBelow(parts, n, m, q) && q in parts && |q| == m && NextAfter(q, q', n, m)
    ensures CoversBelow(parts, n, m, q')
  {
    forall r | IsPartitionInto(r, n, m) && ColexLess(r, q') ensures r in parts {
      if r != q && !ColexLess(r, q) {
        ColexTotal(r, q);
        ColexIrreflexive(q');
        if ColexLess(q', r) {
          ColexTrans(q', r, q');
        }
      }
    }
  }

  /** After the last partition every partition has been visited. */
  lemma CoversAll(parts: seq<seq<int>>, n: int, m: int, q: seq<int>)
    requires CoversBelow(parts, n, m, q) && q in parts && |q| == m
    requires forall r :: IsPartitionInto(r, n, m) ==> !ColexLess(q, r)
    ensures forall r :: IsPartitionInto(r, n, m) ==> r in parts
  {
    forall r | IsPartitionInto(r, n, m) ensures r in parts {
      if r != q {
        ColexTotal(r, q);
      }
    }
  }
}
