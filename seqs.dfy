/**
 * Aggregates and orderings over sequences: the building blocks of pandas' `sum`, `mean`,
 * `max`, `min`, `tail`, `unique`/`factorize` and `sort_values` as the pipeline uses them.
 */
module Seqs {
  import opened Wrappers

  function Sum(xs: seq<real>): real {
    if |xs| == 0 then 0.0 else Sum(xs[..|xs| - 1]) + xs[|xs| - 1]
  }

  lemma {:induction false} SumAppend(xs: seq<real>, ys: seq<real>)
    ensures Sum(xs + ys) == Sum(xs) + Sum(ys)
    decreases |ys|
  {
    if |ys| > 0 {
      assert (xs + ys)[..|xs + ys| - 1] == xs + ys[..|ys| - 1];
      SumAppend(xs, ys[..|ys| - 1]);
    } else {
      assert xs + ys == xs;
    }
  }

  /** Arithmetic mean of a non-empty column (pandas' `mean`). */
  function Mean(xs: seq<real>): real
    requires |xs| > 0
  {
    Sum(xs) / |xs| as real
  }

  function MaxOf(xs: seq<real>): (r: real)
    requires |xs| > 0
    ensures r in xs && forall i :: 0 <= i < |xs| ==> xs[i] <= r
  {
    if |xs| == 1 then xs[0]
    else var m := MaxOf(xs[..|xs| - 1]); if xs[|xs| - 1] > m then xs[|xs| - 1] else m
  }

  function MinOf(xs: seq<real>): (r: real)
    requires |xs| > 0
    ensures r in xs && forall i :: 0 <= i < |xs| ==> r <= xs[i]
  {
    if |xs| == 1 then xs[0]
    else var m := MinOf(xs[..|xs| - 1]); if xs[|xs| - 1] < m then xs[|xs| - 1] else m
  }

  /** `tail(n)`: the last `min(n, |xs|)` elements. */
  function Tail<T>(xs: seq<T>, n: nat): (r: seq<T>)
    ensures |r| == if n < |xs| then n else |xs|
    ensures forall i :: 0 <= i < |r| ==> r[i] == xs[|xs| - |r| + i]
  {
    if n < |xs| then xs[|xs| - n..] else xs
  }

  lemma TailOfTail<T>(xs: seq<T>, n: nat, m: nat)
    requires m <= n
    ensures Tail(Tail(xs, n), m) == Tail(xs, m)
  {
  }

  /** A sequence whose elements are all `c` sums to `|xs| * c`, and its mean, max and min are `c`. */
  lemma {:induction false} ConstantAggregates(xs: seq<real>, c: real)
    requires forall i :: 0 <= i < |xs| ==> xs[i] == c
    ensures Sum(xs) == |xs| as real * c
    ensures |xs| > 0 ==> Mean(xs) == c && MaxOf(xs) == c && MinOf(xs) == c
  {
    ConstantSum(xs, c);
  }

  lemma {:induction false} ConstantSum(xs: seq<real>, c: real)
    requires forall i :: 0 <= i < |xs| ==> xs[i] == c
    ensures Sum(xs) == |xs| as real * c
  {
    if |xs| > 0 {
      ConstantSum(xs[..|xs| - 1], c);
    }
  }

  /** Sample variance (ddof = 1); None where pandas gives NaN, i.e. for fewer than two values. */
  function SampleVariance(xs: seq<real>): (r: Option<real>)
    ensures r.Some? <==> |xs| >= 2
    ensures r.Some? ==> r.value >= 0.0
  {
    if |xs| < 2 then None
    else Some(SquaredDeviations(xs, Mean(xs)) / (|xs| - 1) as real)
  }

  function SquaredDeviations(xs: seq<real>, mean: real): (r: real)
    ensures r >= 0.0
  {
    if |xs| == 0 then 0.0
    else
      var d := xs[|xs| - 1] - mean;
      assert d * d >= 0.0 by {
        if d < 0.0 { assert d * d == (-d) * (-d); }
      }
      SquaredDeviations(xs[..|xs| - 1], mean) + d * d
  }

  /** The variance of a window of equal values is zero. */
  lemma {:induction false} ConstantVariance(xs: seq<real>, c: real)
    requires |xs| >= 2 && forall i :: 0 <= i < |xs| ==> xs[i] == c
    ensures SampleVariance(xs) == Some(0.0)
  {
    ConstantAggregates(xs, c);
    ConstantDeviations(xs, c);
  }

  lemma {:induction false} ConstantDeviations(xs: seq<real>, c: real)
    requires forall i :: 0 <= i < |xs| ==> xs[i] == c
    ensures SquaredDeviations(xs, c) == 0.0
  {
    if |xs| > 0 {
      ConstantDeviations(xs[..|xs| - 1], c);
    }
  }

  predicate NoDuplicates<T(==)>(s: seq<T>) {
    forall i, j :: 0 <= i < j < |s| ==> s[i] != s[j]
  }

  /** pandas' `unique()`: the distinct values in order of first appearance. */
  function Distinct<T(==)>(s: seq<T>): (r: seq<T>)
    ensures NoDuplicates(r)
    ensures forall i :: 0 <= i < |s| ==> s[i] in r
    ensures forall i :: 0 <= i < |r| ==> r[i] in s
    ensures |r| <= |s|
  {
    if |s| == 0 then []
    else
      var d := Distinct(s[..|s| - 1]);
      if s[|s| - 1] in d then d else d + [s[|s| - 1]]
  }

  /** The set of values of `s`. */
  ghost function Elements<T>(s: seq<T>): set<T> {
    set x | x in s
  }

  /** `nunique()`: the number of distinct values is the size of the set of values. */
  lemma {:induction false} DistinctCount<T>(s: seq<T>)
    ensures |Distinct(s)| == |Elements(s)|
  {
    if |s| > 0 {
      var init, x := s[..|s| - 1], s[|s| - 1];
      DistinctCount(init);
      assert Elements(s) == Elements(init) + {x};
      if x !in Distinct(init) {
        assert x !in init;
      }
    }
  }

  /** Position of `x` in `s`, if `x` occurs. */
  function IndexOf<T(==)>(s: seq<T>, x: T): (r: nat)
    requires x in s
    ensures r < |s| && s[r] == x && forall j :: 0 <= j < r ==> s[j] != x
  {
    if s[0] == x then 0 else 1 + IndexOf(s[1..], x)
  }

  /** `pd.factorize(s)[0][i]` for the value `x`: its position among the distinct values. */
  function Code<T(==)>(s: seq<T>, x: T): nat
    requires x in s
  {
    IndexOf(Distinct(s), x)
  }

  /** Extending a sequence only appends new values to its distinct values. */
  lemma {:induction false} DistinctPrefix<T>(s: seq<T>, n: nat)
    requires n <= |s|
    ensures Distinct(s[..n]) <= Distinct(s)
  {
    if n < |s| {
      var t := s[..|s| - 1];
      assert t[..n] == s[..n];
      DistinctPrefix(t, n);
      var d := Distinct(t);
      assert Distinct(s) == d || Distinct(s) == d + [s[|s| - 1]];
      assert d <= Distinct(s);
    } else {
      assert s[..n] == s;
    }
  }

  /** A value met for the first time is appended to the distinct values. */
  lemma DistinctAtFirstAppearance<T>(s: seq<T>, i: nat)
    requires i < |s| && s[i] !in s[..i]
    ensures Distinct(s[..i + 1]) == Distinct(s[..i]) + [s[i]]
  {
    assert s[..i + 1][..i] == s[..i];
  }

  /**
   * Factorize codes count first appearances: the code of the value found at index `i` is the
   * number of distinct values seen before that value first appears.
   */
  lemma {:induction false} CodeIsFirstAppearanceRank<T>(s: seq<T>, i: nat)
    requires i < |s| && s[i] !in s[..i]
    ensures Code(s, s[i]) == |Distinct(s[..i])|
  {
    DistinctPrefix(s, i + 1);
    DistinctAtFirstAppearance(s, i);
    var d := Distinct(s[..i]);
    var full := Distinct(s);
    assert full[|d|] == s[i];
    IndexOfUnique(full, |d|);
  }

  lemma IndexOfUnique<T>(s: seq<T>, k: nat)
    requires k < |s| && NoDuplicates(s)
    ensures IndexOf(s, s[k]) == k
  {
  }

  /** A value that first appears later gets a larger code. */
  lemma {:induction false} CodeOrder<T>(s: seq<T>, i: nat, j: nat)
    requires i < j < |s|
    requires s[i] !in s[..i] && s[j] !in s[..j]
    ensures Code(s, s[i]) < Code(s, s[j])
  {
    CodeIsFirstAppearanceRank(s, i);
    CodeIsFirstAppearanceRank(s, j);
    DistinctAtFirstAppearance(s, i);
    DistinctPrefix(s[..j], i + 1);
    assert s[..j][..i + 1] == s[..i + 1];
    assert |Distinct(s[..i + 1])| <= |Distinct(s[..j])|;
  }

  /** `filter`: keep the elements satisfying `p`, in order. */
  function Filter<T>(s: seq<T>, p: T -> bool): (r: seq<T>)
    ensures |r| <= |s|
  {
    if |s| == 0 then [] else
      var rest := Filter(s[..|s| - 1], p);
      if p(s[|s| - 1]) then rest + [s[|s| - 1]] else rest
  }

  /** The elements among the first `n` of `s` whose flag in `keep` is set, in order. */
  function Select<T>(s: seq<T>, keep: seq<bool>, n: nat): (r: seq<T>)
    requires n <= |s| && |keep| == |s|
    ensures |r| <= n
  {
    if n == 0 then [] else Select(s, keep, n - 1) + (if keep[n - 1] then [s[n - 1]] else [])
  }

  /** Filtering by `p` is selecting by flags that agree with `p`. */
  lemma {:induction false} FilterIsSelect<T>(s: seq<T>, p: T -> bool, keep: seq<bool>, n: nat)
    requires n <= |s| && |keep| == |s|
    requires forall i :: 0 <= i < n ==> (p(s[i]) <==> keep[i])
    ensures Filter(s[..n], p) == Select(s, keep, n)
  {
    if n > 0 {
      FilterIsSelect(s, p, keep, n - 1);
      assert s[..n][..n - 1] == s[..n - 1];
    }
  }

  /** The kept elements are exactly the elements of `s` satisfying `p`. */
  lemma {:induction false} FilterMembers<T>(s: seq<T>, p: T -> bool)
    ensures forall i :: 0 <= i < |Filter(s, p)| ==> p(Filter(s, p)[i])
    ensures forall i :: 0 <= i < |Filter(s, p)| ==> Filter(s, p)[i] in s
    ensures forall i :: 0 <= i < |s| && p(s[i]) ==> s[i] in Filter(s, p)
  {
    if |s| > 0 {
      FilterMembers(s[..|s| - 1], p);
      assert forall x :: x in s[..|s| - 1] ==> x in s;
    }
  }

  /** Filtering a concatenation filters each part, in order. */
  lemma {:induction false} FilterAppend<T>(a: seq<T>, b: seq<T>, p: T -> bool)
    ensures Filter(a + b, p) == Filter(a, p) + Filter(b, p)
    decreases |b|
  {
    if |b| > 0 {
      var init := b[..|b| - 1];
      FilterAppend(a, init, p);
      assert (a + b)[..|a + b| - 1] == a + init;
    } else {
      assert a + b == a;
    }
  }

  /** Nothing is kept when no element satisfies `p`. */
  lemma {:induction false} FilterNone<T>(s: seq<T>, p: T -> bool)
    requires forall i :: 0 <= i < |s| ==> !p(s[i])
    ensures Filter(s, p) == []
  {
    if |s| > 0 {
      FilterNone(s[..|s| - 1], p);
    }
  }

  ghost predicate TotalPreorder<T(!new)>(le: (T, T) -> bool) {
    && (forall a, b :: le(a, b) || le(b, a))
    && (forall a, b, c :: le(a, b) && le(b, c) ==> le(a, c))
  }

  predicate SortedBy<T>(s: seq<T>, le: (T, T) -> bool) {
    forall i, j :: 0 <= i < j < |s| ==> le(s[i], s[j])
  }

  /** Insert `x` after every element not above it (so equal elements keep their order). */
  function Insert<T>(x: T, s: seq<T>, le: (T, T) -> bool): (r: seq<T>)
    ensures |r| == |s| + 1
    ensures multiset(r) == multiset(s) + multiset{x}
  {
    if |s| == 0 then [x]
    else if le(s[0], x) then assert s == [s[0]] + s[1..]; [s[0]] + Insert(x, s[1..], le)
    else assert s == [s[0]] + s[1..]; [x] + s
  }

  lemma {:induction false} InsertSorted<T(!new)>(x: T, s: seq<T>, le: (T, T) -> bool)
    requires TotalPreorder(le) && SortedBy(s, le)
    ensures SortedBy(Insert(x, s, le), le)
  {
    if |s| > 0 && le(s[0], x) {
      InsertSorted(x, s[1..], le);
      var r := Insert(x, s[1..], le);
      assert forall y :: y in multiset(r) ==> y == x || y in s[1..];
      forall j | 0 <= j < |r| ensures le(s[0], r[j]) {
        assert r[j] in multiset(r);
      }
    }
  }

  /** Stable insertion sort: pandas' multi-column `sort_values` (a stable lexsort). */
  function SortBy<T>(s: seq<T>, le: (T, T) -> bool): (r: seq<T>)
    ensures |r| == |s|
  {
    if |s| == 0 then [] else Insert(s[|s| - 1], SortBy(s[..|s| - 1], le), le)
  }

  /** The sorted sequence is ordered and a permutation of the input. */
  lemma SortBySpec<T(!new)>(s: seq<T>, le: (T, T) -> bool)
    requires TotalPreorder(le)
    ensures SortedBy(SortBy(s, le), le)
    ensures multiset(SortBy(s, le)) == multiset(s)
  {
    SortBySorted(s, le);
    SortByPermutes(s, le);
  }

  lemma {:induction false} SortBySorted<T(!new)>(s: seq<T>, le: (T, T) -> bool)
    requires TotalPreorder(le)
    ensures SortedBy(SortBy(s, le), le)
  {
    if |s| > 0 {
      SortBySorted(s[..|s| - 1], le);
      InsertSorted(s[|s| - 1], SortBy(s[..|s| - 1], le), le);
    }
  }

  lemma {:induction false} SortByPermutes<T>(s: seq<T>, le: (T, T) -> bool)
    ensures multiset(SortBy(s, le)) == multiset(s)
  {
    if |s| > 0 {
      var init, x := s[..|s| - 1], s[|s| - 1];
      SortByPermutes(init, le);
      assert s == init + [x];
      assert multiset(s) == multiset(init) + multiset{x};
    }
  }
}
