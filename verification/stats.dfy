/** The summary statistics of the repeated runs: `median` (the element at
    index `size / 2` of a sorted copy, the upper median for an even count),
    `minv` and `maxv`, and the Go copies `median`, `minDur`, `maxDur`.
    Run times are modelled as integers (Go's `time.Duration` is one). */
module Stats {

  ghost predicate Sorted(s: seq<int>)
  {
    forall i, j :: 0 <= i < j < |s| ==> s[i] <= s[j]
  }

  /** Insert `x` into a sorted sequence. */
  function Insert(x: int, s: seq<int>): (r: seq<int>)
    requires Sorted(s)
    ensures Sorted(r) && multiset(r) == multiset(s) + multiset{x}
  {
    if |s| == 0 || x <= s[0] then [x] + s
    else
      var t := Insert(x, s[1..]);
      assert s == [s[0]] + s[1..];
      ConsSorted(s[0], t, s[1..], x);
      [s[0]] + t
  }

  /** Putting a lower bound of every element in front keeps order. */
  lemma {:induction false} ConsSorted(h: int, t: seq<int>, rest: seq<int>, x: int)
    requires Sorted(t) && multiset(t) == multiset(rest) + multiset{x}
    requires h <= x && forall k :: 0 <= k < |rest| ==> h <= rest[k]
    ensures Sorted([h] + t)
  {
    forall k | 0 <= k < |t|
      ensures h <= t[k]
    {
      assert t[k] in multiset(t);
      if t[k] != x {
        assert t[k] in multiset(rest);
      }
    }
  }

  /** A sorted copy: the role of `std::sort` and of `sort.Slice`. */
  function Sort(v: seq<int>): (r: seq<int>)
    ensures Sorted(r) && multiset(r) == multiset(v)
  {
    if |v| == 0 then []
    else
      assert v == v[..|v| - 1] + [v[|v| - 1]];
      Insert(v[|v| - 1], Sort(v[..|v| - 1]))
  }

  /** A sorted arrangement of a multiset is unique, so the result does not
      depend on which sorting algorithm produced it. */
  lemma {:induction false} SortedUnique(a: seq<int>, b: seq<int>)
    requires Sorted(a) && Sorted(b) && multiset(a) == multiset(b)
    ensures a == b
    decreases |a|
  {
    if |a| == 0 {
      assert |multiset(b)| == 0;
    } else {
      assert |b| == |multiset(b)| == |multiset(a)| == |a|;
      SortedHeadLeast(b, a[0]);
      SortedHeadLeast(a, b[0]);
      SortedTail(a, b);
      SortedUnique(a[1..], b[1..]);
    }
  }

  /** The head of a sorted sequence is its least element. */
  lemma {:induction false} SortedHeadLeast(s: seq<int>, x: int)
    requires Sorted(s) && x in multiset(s)
    ensures |s| > 0 && s[0] <= x
  {
    var j :| 0 <= j < |s| && s[j] == x;
  }

  /** Two arrangements of one multiset with the same head agree on the rest. */
  lemma {:induction false} SortedTail(a: seq<int>, b: seq<int>)
    requires |a| > 0 && |b| > 0 && a[0] == b[0] && multiset(a) == multiset(b)
    ensures multiset(a[1..]) == multiset(b[1..])
  {
    assert a == [a[0]] + a[1..] && b == [b[0]] + b[1..];
    assert multiset(a) == multiset{a[0]} + multiset(a[1..]);
    assert multiset(b) == multiset{a[0]} + multiset(b[1..]);
    assert multiset(a[1..]) == multiset(a) - multiset{a[0]};
  }

  datatype Side = Below | Above

  /** How many elements of `s` lie strictly below, or strictly above, `m`. */
  function Count(s: seq<int>, m: int, side: Side): (r: nat)
    ensures r <= |s|
  {
    if |s| == 0 then 0
    else
      var x := s[|s| - 1];
      Count(s[..|s| - 1], m, side) + (if (side == Below && x < m) || (side == Above && x > m) then 1 else 0)
  }

  lemma {:induction false} CountConcat(a: seq<int>, b: seq<int>, m: int, side: Side)
    ensures Count(a + b, m, side) == Count(a, m, side) + Count(b, m, side)
    decreases |b|
  {
    if |b| == 0 {
      assert a + b == a;
    } else {
      assert (a + b)[..|a + b| - 1] == a + b[..|b| - 1];
      assert (a + b)[|a + b| - 1] == b[|b| - 1];
      CountConcat(a, b[..|b| - 1], m, side);
    }
  }

  /** Counting ignores the order of the elements. */
  lemma {:induction false} CountPermutation(a: seq<int>, b: seq<int>, m: int, side: Side)
    requires multiset(a) == multiset(b)
    ensures Count(a, m, side) == Count(b, m, side)
    decreases |a|
  {
    if |a| == 0 {
      assert |multiset(b)| == 0;
    } else {
      var x := a[|a| - 1];
      assert x in multiset(b);
      var j :| 0 <= j < |b| && b[j] == x;
      RemoveAt(b, j);
      DropLast(a);
      CountPermutation(a[..|a| - 1], b[..j] + b[j + 1..], m, side);
      CountRemove(b, j, m, side);
    }
  }

  lemma {:induction false} DropLast(a: seq<int>)
    requires |a| > 0
    ensures multiset(a[..|a| - 1]) == multiset(a) - multiset{a[|a| - 1]}
  {
    assert a == a[..|a| - 1] + [a[|a| - 1]];
  }

  /** Removing the element at `j` removes one copy of it. */
  lemma {:induction false} RemoveAt(b: seq<int>, j: nat)
    requires j < |b|
    ensures multiset(b[..j] + b[j + 1..]) == multiset(b) - multiset{b[j]}
  {
    assert b == b[..j] + [b[j]] + b[j + 1..];
    assert multiset(b) == multiset(b[..j]) + multiset{b[j]} + multiset(b[j + 1..]);
  }

  /** Removing the element at `j` lowers the count by what it contributed. */
  lemma {:induction false} CountRemove(b: seq<int>, j: nat, m: int, side: Side)
    requires j < |b|
    ensures Count(b, m, side) == Count(b[..j] + b[j + 1..], m, side)
              + (if (side == Below && b[j] < m) || (side == Above && b[j] > m) then 1 else 0)
  {
    var x := b[j];
    assert b == b[..j] + [x] + b[j + 1..];
    CountConcat(b[..j] + [x], b[j + 1..], m, side);
    CountConcat(b[..j], [x], m, side);
    CountConcat(b[..j], b[j + 1..], m, side);
    assert [x][..0] == [];
  }

  /** No element on the counted side gives a count of zero. */
  lemma {:induction false} CountNone(s: seq<int>, m: int, side: Side)
    requires side == Below ==> forall i :: 0 <= i < |s| ==> s[i] >= m
    requires side == Above ==> forall i :: 0 <= i < |s| ==> s[i] <= m
    ensures Count(s, m, side) == 0
    decreases |s|
  {
    if |s| > 0 {
      CountNone(s[..|s| - 1], m, side);
    }
  }

  /** In a sorted sequence at most `k` elements lie below the one at `k`,
      and at most `|s| - 1 - k` above it. */
  lemma {:induction false} SortedRank(s: seq<int>, k: nat)
    requires Sorted(s) && k < |s|
    ensures Count(s, s[k], Below) <= k
    ensures Count(s, s[k], Above) <= |s| - 1 - k
  {
    assert s == s[..k] + s[k..];
    CountConcat(s[..k], s[k..], s[k], Below);
    CountNone(s[k..], s[k], Below);
    assert s == s[..k + 1] + s[k + 1..];
    CountConcat(s[..k + 1], s[k + 1..], s[k], Above);
    CountNone(s[..k + 1], s[k], Above);
  }

  /** `median(v)`: sort a copy and take the element at index `size / 2`.
      The result is one of the runs; at most half of the runs are faster
      and at most half slower (the upper median for an even count). */
  function Median(v: seq<int>): (r: int)
    requires |v| >= 1
    ensures r in v
    ensures Count(v, r, Below) <= |v| / 2
    ensures Count(v, r, Above) <= |v| - 1 - |v| / 2
  {
    var s := Sort(v);
    assert |s| == |multiset(s)| == |multiset(v)| == |v|;
    assert s[|v| / 2] in multiset(v);
    SortedRank(s, |v| / 2);
    CountPermutation(s, v, s[|v| / 2], Below);
    CountPermutation(s, v, s[|v| / 2], Above);
    s[|v| / 2]
  }

  /** Every sorted copy gives the same median: `std::sort` in C++ and
      `sort.Slice` in Go agree. The input itself is passed by value and so
      is left unchanged. */
  lemma {:induction false} MedianOfAnySort(v: seq<int>, s: seq<int>)
    requires |v| >= 1 && |s| == |v| && Sorted(s) && multiset(s) == multiset(v)
    ensures Median(v) == s[|v| / 2]
  {
    SortedUnique(s, Sort(v));
  }

  /** For an odd count the median has exactly as many runs on either side
      when the runs are distinct. */
  lemma {:induction false} MedianBalanced(v: seq<int>)
    requires |v| % 2 == 1
    requires forall i, j :: 0 <= i < j < |v| ==> v[i] != v[j]
    ensures Count(v, Median(v), Below) == |v| / 2 == Count(v, Median(v), Above)
  {
    var m := Median(v);
    var k :| 0 <= k < |v| && v[k] == m;
    CountSplit(v, k);
  }

  /** Around a distinct element, every other element is below or above. */
  lemma {:induction false} CountSplit(v: seq<int>, k: nat)
    requires k < |v|
    requires forall i, j :: 0 <= i < j < |v| ==> v[i] != v[j]
    ensures Count(v, v[k], Below) + Count(v, v[k], Above) == |v| - 1
  {
    assert v == v[..k] + [v[k]] + v[k + 1..];
    CountConcat(v[..k] + [v[k]], v[k + 1..], v[k], Below);
    CountConcat(v[..k], [v[k]], v[k], Below);
    CountConcat(v[..k] + [v[k]], v[k + 1..], v[k], Above);
    CountConcat(v[..k], [v[k]], v[k], Above);
    assert [v[k]][..0] == [];
    CountBoth(v[..k], v[k]);
    CountBoth(v[k + 1..], v[k]);
  }

  /** Where `m` does not occur, each element is below or above it. */
  lemma {:induction false} CountBoth(s: seq<int>, m: int)
    requires forall i :: 0 <= i < |s| ==> s[i] != m
    ensures Count(s, m, Below) + Count(s, m, Above) == |s|
    decreases |s|
  {
    if |s| > 0 {
      CountBoth(s[..|s| - 1], m);
    }
  }

  /** `minv(v)`: the value `*std::min_element` reads. */
  function MinOf(v: seq<int>): (r: int)
    requires |v| >= 1
    ensures r in v && forall i :: 0 <= i < |v| ==> r <= v[i]
  {
    if |v| == 1 then v[0]
    else
      var m := MinOf(v[..|v| - 1]);
      assert forall i :: 0 <= i < |v| - 1 ==> v[..|v| - 1][i] == v[i];
      if v[|v| - 1] < m then v[|v| - 1] else m
  }

  /** `maxv(v)`: the value `*std::max_element` reads. */
  function MaxOf(v: seq<int>): (r: int)
    requires |v| >= 1
    ensures r in v && forall i :: 0 <= i < |v| ==> v[i] <= r
  {
    if |v| == 1 then v[0]
    else
      var m := MaxOf(v[..|v| - 1]);
      assert forall i :: 0 <= i < |v| - 1 ==> v[..|v| - 1][i] == v[i];
      if v[|v| - 1] > m then v[|v| - 1] else m
  }

  /** The smallest and the largest element are the only ones of their kind. */
  lemma {:induction false} ExtremesUnique(v: seq<int>, a: int, b: int)
    requires a in v && forall i :: 0 <= i < |v| ==> a <= v[i]
    requires b in v && forall i :: 0 <= i < |v| ==> b <= v[i]
    ensures a == b
  {
    var i :| 0 <= i < |v| && v[i] == a;
    var j :| 0 <= j < |v| && v[j] == b;
  }

  /** The table row: minimum, median and maximum come in order. */
  lemma {:induction false} MinMedianMax(v: seq<int>)
    requires |v| >= 1
    ensures MinOf(v) <= Median(v) <= MaxOf(v)
  {
    var m := Median(v);
    var k :| 0 <= k < |v| && v[k] == m;
  }

  /** Go's `minDur`: start from `xs[0]` and keep any smaller element of
      `xs[1:]`. It agrees with the C++ `minv`. */
  method MinDur(xs: seq<int>) returns (m: int)
    requires |xs| >= 1
    ensures m in xs && forall i :: 0 <= i < |xs| ==> m <= xs[i]
    ensures m == MinOf(xs)
  {
    m := xs[0];
    var k := 1;
    while k < |xs|
      invariant 1 <= k <= |xs|
      invariant m in xs[..k]
      invariant forall i :: 0 <= i < k ==> m <= xs[i]
    {
      if xs[k] < m {
        m := xs[k];
      }
      k := k + 1;
    }
    assert xs[..k] == xs;
    ExtremesUnique(xs, m, MinOf(xs));
  }

  /** Go's `maxDur`: start from `xs[0]` and keep any larger element of
      `xs[1:]`. It agrees with the C++ `maxv`. */
  method MaxDur(xs: seq<int>) returns (m: int)
    requires |xs| >= 1
    ensures m in xs && forall i :: 0 <= i < |xs| ==> xs[i] <= m
    ensures m == MaxOf(xs)
  {
    m := xs[0];
    var k := 1;
    while k < |xs|
      invariant 1 <= k <= |xs|
      invariant m in xs[..k]
      invariant forall i :: 0 <= i < k ==> xs[i] <= m
    {
      if xs[k] > m {
        m := xs[k];
      }
      k := k + 1;
    }
    assert xs[..k] == xs;
    var i :| 0 <= i < |xs| && xs[i] == m;
    var j :| 0 <= j < |xs| && xs[j] == MaxOf(xs);
  }
}
