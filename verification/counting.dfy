/**
 * The pandas operations the aggregation relies on, over plain sequences:
 * boolean-mask filtering, `value_counts()`, `Series.get(key, 0)`,
 * `Series.sum()` and `head(n)`.
 */
module Counting {

  /** How often `x` occurs in `s`. */
  function Count<T(==,!new)>(s: seq<T>, x: T): nat {
    multiset(s)[x]
  }

  /** The positions of `s` whose element passes `keep`, in increasing order. */
  function KeptPositions<T>(s: seq<T>, keep: T -> bool): (idx: seq<nat>)
    ensures |idx| <= |s|
    ensures forall k :: 0 <= k < |idx| ==> idx[k] < |s| && keep(s[idx[k]])
    ensures forall i, j :: 0 <= i < j < |idx| ==> idx[i] < idx[j]
  {
    if s == [] then []
    else
      var idx := KeptPositions(s[..|s| - 1], keep);
      if keep(s[|s| - 1]) then idx + [|s| - 1] else idx
  }

  /** No passing position is missing from the kept positions. */
  lemma {:induction false} KeptPositionsComplete<T>(s: seq<T>, keep: T -> bool)
    ensures forall p :: 0 <= p < |s| && keep(s[p]) ==> p in KeptPositions(s, keep)
  {
    if s != [] {
      var init := s[..|s| - 1];
      KeptPositionsComplete(init, keep);
      forall p | 0 <= p < |init| && keep(s[p]) ensures p in KeptPositions(s, keep) {
        assert init[p] == s[p];
      }
    }
  }

  /** The elements of `s` at the positions `idx`, in the order of `idx`. */
  function At<T>(s: seq<T>, idx: seq<nat>): (r: seq<T>)
    requires forall k :: 0 <= k < |idx| ==> idx[k] < |s|
    ensures |r| == |idx| && forall k :: 0 <= k < |idx| ==> r[k] == s[idx[k]]
  {
    seq(|idx|, k requires 0 <= k < |idx| => s[idx[k]])
  }

  /**
   * `df[mask]`: the elements that pass `keep`, in their original order;
   * exactly the elements at the kept positions.
   */
  function Filter<T(==,!new)>(s: seq<T>, keep: T -> bool): (r: seq<T>)
    ensures |r| == |KeptPositions(s, keep)| <= |s|
    ensures forall k :: 0 <= k < |r| ==> r[k] == s[KeptPositions(s, keep)[k]]
    ensures forall x :: Count(r, x) == if keep(x) then Count(s, x) else 0
    ensures forall k :: 0 <= k < |r| ==> keep(r[k]) && r[k] in s
  {
    KeptCounts(s, keep);
    At(s, KeptPositions(s, keep))
  }

  /** The kept positions hold every passing element as often as `s` does, and nothing else. */
  lemma {:induction false} KeptCounts<T(!new)>(s: seq<T>, keep: T -> bool)
    ensures forall x :: Count(At(s, KeptPositions(s, keep)), x) == if keep(x) then Count(s, x) else 0
  {
    if s != [] {
      var init, last := s[..|s| - 1], s[|s| - 1];
      assert s == init + [last];
      var idx := KeptPositions(init, keep);
      KeptCounts(init, keep);
      var picked := At(s, KeptPositions(s, keep));
      assert picked == if keep(last) then At(init, idx) + [last] else At(init, idx) by {
        AtSnoc(init, last, idx);
      }
      assert multiset(s) == multiset(init) + multiset{last};
    }
  }

  /** Filtering one element more: the element is appended when it passes. */
  lemma FilterSnoc<T(!new)>(init: seq<T>, last: T, keep: T -> bool)
    ensures Filter(init + [last], keep) == if keep(last) then Filter(init, keep) + [last] else Filter(init, keep)
  {
    var s := init + [last];
    assert s[..|s| - 1] == init;
    AtSnoc(init, last, KeptPositions(init, keep));
  }

  /** Appending an element leaves the picks below it alone; picking it adds it at the end. */
  lemma AtSnoc<T>(init: seq<T>, last: T, idx: seq<nat>)
    requires forall k :: 0 <= k < |idx| ==> idx[k] < |init|
    ensures At(init + [last], idx) == At(init, idx)
    ensures At(init + [last], idx + [|init|]) == At(init, idx) + [last]
  {
  }

  /** One entry of a `value_counts()` result: a value and how often it occurs. */
  datatype Tally<T> = Tally(value: T, count: nat)

  function Values<T>(vc: seq<Tally<T>>): (r: seq<T>)
    ensures |r| == |vc| && forall k :: 0 <= k < |vc| ==> r[k] == vc[k].value
  {
    seq(|vc|, k requires 0 <= k < |vc| => vc[k].value)
  }

  predicate Distinct<T(==,!new)>(s: seq<T>) {
    forall i, j :: 0 <= i < j < |s| ==> s[i] != s[j]
  }

  predicate NonIncreasing<T>(vc: seq<Tally<T>>) {
    forall i, j :: 0 <= i < j < |vc| ==> vc[i].count >= vc[j].count
  }

  /** `Series.sum()` of a count series. */
  function SumCounts<T>(vc: seq<Tally<T>>): nat {
    if vc == [] then 0 else vc[0].count + SumCounts(vc[1..])
  }

  /**
   * What `s.value_counts()` returns, whatever order it gives tied values:
   * every distinct value of `s` once, with its number of occurrences, most
   * frequent first.
   */
  ghost predicate IsValueCounts<T(!new)>(s: seq<T>, vc: seq<Tally<T>>) {
    && Distinct(Values(vc))
    && (forall x :: x in Values(vc) <==> x in s)
    && (forall k :: 0 <= k < |vc| ==> vc[k].count == Count(s, vc[k].value))
    && NonIncreasing(vc)
  }

  /** The distinct values of `s`, in order of first occurrence. */
  function Uniques<T(==,!new)>(s: seq<T>): (d: seq<T>)
    ensures Distinct(d)
    ensures forall x :: x in d <==> x in s
  {
    if s == [] then []
    else
      var d := Uniques(s[..|s| - 1]);
      var last := s[|s| - 1];
      assert forall x :: x in s <==> x in s[..|s| - 1] || x == last;
      if last in d then d else d + [last]
  }

  /** Each value of `values` paired with its number of occurrences in `s`. */
  function TallyAll<T(==,!new)>(s: seq<T>, values: seq<T>): (r: seq<Tally<T>>)
    ensures |r| == |values|
    ensures forall k :: 0 <= k < |r| ==> r[k] == Tally(values[k], Count(s, values[k]))
  {
    seq(|values|, k requires 0 <= k < |values| => Tally(values[k], Count(s, values[k])))
  }

  /** Puts `t` after every entry counted at least as often (so earlier entries win ties). */
  function InsertByCount<T>(t: Tally<T>, sorted: seq<Tally<T>>): (r: seq<Tally<T>>)
    ensures |r| == |sorted| + 1
    ensures multiset(r) == multiset(sorted) + multiset{t}
  {
    if sorted == [] then [t]
    else if sorted[0].count >= t.count then
      assert sorted == [sorted[0]] + sorted[1..];
      [sorted[0]] + InsertByCount(t, sorted[1..])
    else
      [t] + sorted
  }

  /** Inserting into a list ordered by count keeps it ordered. */
  lemma {:induction false} InsertKeepsOrder<T>(t: Tally<T>, sorted: seq<Tally<T>>)
    requires NonIncreasing(sorted)
    ensures NonIncreasing(InsertByCount(t, sorted))
  {
    if sorted == [] {
    } else if sorted[0].count >= t.count {
      InsertKeepsOrder(t, sorted[1..]);
      InsertBounded(t, sorted[1..], sorted[0].count);
      ConsKeepsOrder(sorted[0], InsertByCount(t, sorted[1..]));
    } else {
      ConsKeepsOrder(t, sorted);
    }
  }

  lemma ConsKeepsOrder<T>(head: Tally<T>, rest: seq<Tally<T>>)
    requires NonIncreasing(rest)
    requires forall k :: 0 <= k < |rest| ==> rest[k].count <= head.count
    ensures NonIncreasing([head] + rest)
  {
    var r := [head] + rest;
    forall i, j | 0 <= i < j < |r| ensures r[i].count >= r[j].count {
      assert r[j] == rest[j - 1];
      if i > 0 {
        assert r[i] == rest[i - 1];
      }
    }
  }

  /** Inserting an entry no larger than a bound into entries no larger than it keeps them under it. */
  lemma {:induction false} InsertBounded<T>(t: Tally<T>, sorted: seq<Tally<T>>, bound: nat)
    requires t.count <= bound
    requires forall k :: 0 <= k < |sorted| ==> sorted[k].count <= bound
    ensures forall k :: 0 <= k < |sorted| + 1 ==> InsertByCount(t, sorted)[k].count <= bound
  {
    if sorted != [] && sorted[0].count >= t.count {
      InsertBounded(t, sorted[1..], bound);
    }
  }

  /** A stable sort by count, most frequent first: a permutation of `l`. */
  function SortByCount<T>(l: seq<Tally<T>>): (r: seq<Tally<T>>)
    ensures multiset(r) == multiset(l)
    ensures NonIncreasing(r)
  {
    if l == [] then []
    else
      var init := l[..|l| - 1];
      assert l == init + [l[|l| - 1]];
      InsertKeepsOrder(l[|l| - 1], SortByCount(init));
      InsertByCount(l[|l| - 1], SortByCount(init))
  }

  /**
   * `s.value_counts()`: distinct values by decreasing count. Ties are kept
   * in order of first occurrence; pandas leaves that order unspecified, so
   * nothing below depends on it.
   */
  function ValueCounts<T(==,!new)>(s: seq<T>): seq<Tally<T>> {
    SortByCount(TallyAll(s, Uniques(s)))
  }

  /** Two equal elements at different positions make a count of at least two. */
  lemma Repeated<T>(s: seq<T>, i: nat, j: nat)
    requires i < j < |s| && s[i] == s[j]
    ensures multiset(s)[s[i]] >= 2
  {
    assert s == s[..j] + [s[j]] + s[j + 1..];
    assert s[i] in s[..j];
  }

  /** `ValueCounts` is a `value_counts()` result. */
  lemma ValueCountsCorrect<T(!new)>(s: seq<T>)
    ensures IsValueCounts(s, ValueCounts(s))
    ensures |ValueCounts(s)| == |Uniques(s)|
  {
    var u := Uniques(s);
    var vc := ValueCounts(s);
    assert |vc| == |TallyAll(s, u)| by {
      assert |multiset(vc)| == |multiset(TallyAll(s, u))|;
    }
    PermutedTalliesCorrect(s, u, vc);
    PermutedTalliesCover(s, u, vc);
    PermutedTalliesDistinct(s, u, vc);
  }

  /** Every entry of a reordering of the tallies is the true count of a value of `s`. */
  lemma PermutedTalliesCorrect<T(!new)>(s: seq<T>, u: seq<T>, vc: seq<Tally<T>>)
    requires forall x :: x in u ==> x in s
    requires multiset(vc) == multiset(TallyAll(s, u))
    ensures forall k :: 0 <= k < |vc| ==> vc[k].count == Count(s, vc[k].value) && vc[k].value in s
  {
    var t := TallyAll(s, u);
    forall k | 0 <= k < |vc| ensures vc[k] == Tally(vc[k].value, Count(s, vc[k].value)) && vc[k].value in s {
      assert vc[k] in multiset(t);
    }
  }

  /** Every value of `s` has an entry in a reordering of the tallies. */
  lemma PermutedTalliesCover<T(!new)>(s: seq<T>, u: seq<T>, vc: seq<Tally<T>>)
    requires forall x :: x in s ==> x in u
    requires multiset(vc) == multiset(TallyAll(s, u))
    ensures forall x :: x in s ==> x in Values(vc)
  {
    var t := TallyAll(s, u);
    forall x | x in s ensures x in Values(vc) {
      var i :| 0 <= i < |u| && u[i] == x;
      assert t[i] in multiset(vc);
      var k :| 0 <= k < |vc| && vc[k] == t[i];
      assert Values(vc)[k] == x;
    }
  }

  /** A reordering of the tallies of distinct values names each value once. */
  lemma PermutedTalliesDistinct<T(!new)>(s: seq<T>, u: seq<T>, vc: seq<Tally<T>>)
    requires Distinct(u)
    requires multiset(vc) == multiset(TallyAll(s, u))
    ensures Distinct(Values(vc))
  {
    forall k | 0 <= k < |vc| ensures vc[k] == Tally(vc[k].value, Count(s, vc[k].value)) {
      assert vc[k] in multiset(TallyAll(s, u));
    }
    forall i, j | 0 <= i < j < |vc| ensures Values(vc)[i] != Values(vc)[j] {
      if vc[i].value == vc[j].value {
        Repeated(vc, i, j);
        DistinctTallies(s, u, vc[i]);
      }
    }
  }

  /** Tallies of distinct values are distinct entries. */
  lemma DistinctTallies<T(!new)>(s: seq<T>, u: seq<T>, e: Tally<T>)
    requires Distinct(u)
    ensures multiset(TallyAll(s, u))[e] <= 1
  {
    var t := TallyAll(s, u);
    assert Distinct(t) by {
      forall i, j | 0 <= i < j < |t| ensures t[i] != t[j] {
        assert t[i].value == u[i] && t[j].value == u[j];
      }
    }
    DistinctCount(t, e);
  }

  /** `vc.get(x, 0)`: the count recorded for `x`, or 0 when `x` has no entry. */
  function CountOf<T(==,!new)>(vc: seq<Tally<T>>, x: T): nat {
    if vc == [] then 0 else if vc[0].value == x then vc[0].count else CountOf(vc[1..], x)
  }

  /** Looking a value up in a `value_counts()` result gives its number of occurrences, 0 for an absent one. */
  lemma {:induction false} CountOfValueCounts<T(!new)>(s: seq<T>, vc: seq<Tally<T>>, x: T)
    requires forall k :: 0 <= k < |vc| ==> vc[k].count == Count(s, vc[k].value)
    requires forall y :: y in s ==> y in Values(vc)
    ensures CountOf(vc, x) == Count(s, x)
  {
    if vc == [] {
      assert x !in s;
    } else if vc[0].value != x {
      assert forall y :: y in Values(vc) <==> y == vc[0].value || y in Values(vc[1..]);
      if x in s {
        assert x in Values(vc[1..]);
      }
      CountOfValuesAbsent(vc[1..], x, s);
    }
  }

  lemma {:induction false} CountOfValuesAbsent<T(!new)>(vc: seq<Tally<T>>, x: T, s: seq<T>)
    requires forall k :: 0 <= k < |vc| ==> vc[k].count == Count(s, vc[k].value)
    ensures x in Values(vc) ==> CountOf(vc, x) == Count(s, x)
    ensures x !in Values(vc) ==> CountOf(vc, x) == 0
  {
    if vc != [] {
      assert forall y :: y in Values(vc) <==> y == vc[0].value || y in Values(vc[1..]);
      if vc[0].value != x {
        CountOfValuesAbsent(vc[1..], x, s);
      }
    }
  }

  /** `head(n)`: the first `n` entries, or all of them when there are fewer. */
  function Head<T>(vc: seq<Tally<T>>, n: nat): (r: seq<Tally<T>>)
    ensures |r| == if n < |vc| then n else |vc|
  {
    vc[..if n < |vc| then n else |vc|]
  }

  /** The sum of the counts of `keys` over `s`. */
  function SumOver<T(==,!new)>(s: seq<T>, keys: seq<T>): nat {
    if keys == [] then 0 else Count(s, keys[0]) + SumOver(s, keys[1..])
  }

  /** Appending `x` to `s` adds one per occurrence of `x` among the keys. */
  lemma {:induction false} SumOverSnoc<T(!new)>(s: seq<T>, x: T, keys: seq<T>)
    ensures SumOver(s + [x], keys) == SumOver(s, keys) + Count(keys, x)
  {
    if keys != [] {
      SumOverSnoc(s, x, keys[1..]);
      assert keys == [keys[0]] + keys[1..];
      assert multiset(keys) == multiset{keys[0]} + multiset(keys[1..]);
    }
  }

  /** A value occurs at most once in a sequence without repetitions. */
  lemma {:induction false} DistinctCount<T(!new)>(keys: seq<T>, x: T)
    requires Distinct(keys)
    ensures Count(keys, x) == if x in keys then 1 else 0
  {
    if keys != [] {
      assert keys == [keys[0]] + keys[1..];
      assert multiset(keys) == multiset{keys[0]} + multiset(keys[1..]);
      DistinctCount(keys[1..], x);
      if x == keys[0] {
        assert x !in keys[1..];
      }
    }
  }

  /**
   * Counting every key of a repetition-free key list counts each element
   * of `s` at most once, and exactly once when the keys cover `s`.
   */
  lemma {:induction false} SumOverBound<T(!new)>(s: seq<T>, keys: seq<T>)
    requires Distinct(keys)
    ensures SumOver(s, keys) <= |s|
    ensures (forall x :: x in s ==> x in keys) ==> SumOver(s, keys) == |s|
  {
    if s == [] {
      SumOverEmpty(keys);
    } else {
      var init := s[..|s| - 1];
      var last := s[|s| - 1];
      assert s == init + [last];
      SumOverBound(init, keys);
      SumOverSnoc(init, last, keys);
      DistinctCount(keys, last);
    }
  }

  lemma {:induction false} SumOverEmpty<T(!new)>(keys: seq<T>)
    ensures SumOver([], keys) == 0
  {
    if keys != [] {
      SumOverEmpty(keys[1..]);
    }
  }

  /** The mask "not one of `keys`". */
  function Outside<T(==)>(keys: seq<T>): T -> bool {
    x => x !in keys
  }

  /**
   * Counting each of a repetition-free list of keys and then the elements
   * that are none of them accounts for every element exactly once.
   */
  lemma {:induction false} SumOverComplement<T(!new)>(s: seq<T>, keys: seq<T>)
    requires Distinct(keys)
    ensures SumOver(s, keys) + |Filter(s, Outside(keys))| == |s|
  {
    if s == [] {
      SumOverEmpty(keys);
    } else {
      var init := s[..|s| - 1];
      var last := s[|s| - 1];
      assert s == init + [last];
      SumOverComplement(init, keys);
      SumOverSnoc(init, last, keys);
      DistinctCount(keys, last);
    }
  }

  lemma SumOverThree<T(!new)>(s: seq<T>, a: T, b: T, c: T)
    ensures SumOver(s, [a, b, c]) == Count(s, a) + Count(s, b) + Count(s, c)
  {
    assert [a, b, c][1..] == [b, c];
    assert [b, c][1..] == [c];
    assert [c][1..] == [];
    assert SumOver(s, [c]) == Count(s, c);
    assert SumOver(s, [b, c]) == Count(s, b) + Count(s, c);
  }

  /** When every count is exact, the sum of a count series is the sum over its values. */
  lemma {:induction false} SumCountsOver<T(!new)>(s: seq<T>, vc: seq<Tally<T>>)
    requires forall k :: 0 <= k < |vc| ==> vc[k].count == Count(s, vc[k].value)
    ensures SumCounts(vc) == SumOver(s, Values(vc))
  {
    if vc != [] {
      SumCountsOver(s, vc[1..]);
      assert Values(vc)[1..] == Values(vc[1..]);
    }
  }

  /** `value_counts().sum()` is the number of elements counted. */
  lemma SumOfValueCounts<T(!new)>(s: seq<T>, vc: seq<Tally<T>>)
    requires IsValueCounts(s, vc)
    ensures SumCounts(vc) == |s|
  {
    SumCountsOver(s, vc);
    SumOverBound(s, Values(vc));
  }

  /** A prefix of a count series sums to no more than the whole series. */
  lemma {:induction false} SumCountsPrefix<T>(vc: seq<Tally<T>>, n: nat)
    requires n <= |vc|
    ensures SumCounts(vc[..n]) <= SumCounts(vc)
  {
    if n > 0 {
      assert vc[..n][1..] == vc[1..][..n - 1];
      SumCountsPrefix(vc[1..], n - 1);
    }
  }

  /** A repetition-free sequence has as many distinct values as elements. */
  lemma {:induction false} DistinctCard<T(!new)>(d: seq<T>)
    requires Distinct(d)
    ensures |set x | x in d| == |d|
  {
    if d != [] {
      var init := d[..|d| - 1];
      DistinctCard(init);
      assert (set x | x in d) == (set x | x in init) + {d[|d| - 1]};
      assert d[|d| - 1] !in init;
    }
  }

  /**
   * `value_counts().head(n)`: at most `n` entries, as many as there are
   * distinct values otherwise; each value of `s` at most once, with its exact
   * count, most frequent first; and no value left out is more frequent than
   * the last one kept.
   */
  lemma TopCounts<T(!new)>(s: seq<T>, vc: seq<Tally<T>>, n: nat)
    requires IsValueCounts(s, vc)
    ensures var r := Head(vc, n);
      && |r| == (if n < |set x | x in s| then n else |set x | x in s|)
      && Distinct(Values(r))
      && (forall k :: 0 <= k < |r| ==> r[k].value in s && r[k].count == Count(s, r[k].value) && r[k].count > 0)
      && NonIncreasing(r)
      && (forall x :: x in s && x !in Values(r) ==> |r| == n && (n > 0 ==> Count(s, x) <= r[n - 1].count))
      && SumCounts(r) <= |s|
  {
    TopEntries(s, vc, n);
    TopMaximal(s, vc, n);
  }

  lemma TopEntries<T(!new)>(s: seq<T>, vc: seq<Tally<T>>, n: nat)
    requires IsValueCounts(s, vc)
    ensures var r := Head(vc, n);
      && Distinct(Values(r))
      && (forall k :: 0 <= k < |r| ==> r[k].value in s && r[k].count == Count(s, r[k].value) && r[k].count > 0)
      && NonIncreasing(r)
      && SumCounts(r) <= |s|
  {
    var r := Head(vc, n);
    assert forall k | 0 <= k < |r| :: r[k] == vc[k] && Values(r)[k] == Values(vc)[k];
    forall k | 0 <= k < |r| ensures r[k].value in s {
      assert Values(vc)[k] == r[k].value;
    }
    SumCountsPrefix(vc, |r|);
    SumOfValueCounts(s, vc);
  }

  lemma TopMaximal<T(!new)>(s: seq<T>, vc: seq<Tally<T>>, n: nat)
    requires IsValueCounts(s, vc)
    ensures var r := Head(vc, n);
      && |r| == (if n < |set x | x in s| then n else |set x | x in s|)
      && (forall x :: x in s && x !in Values(r) ==> |r| == n && (n > 0 ==> Count(s, x) <= r[n - 1].count))
  {
    var r := Head(vc, n);
    DistinctCard(Values(vc));
    assert (set x | x in Values(vc)) == (set x | x in s);
    assert forall k | 0 <= k < |r| :: Values(r)[k] == Values(vc)[k];
    forall x | x in s && x !in Values(r) ensures |r| == n && (n > 0 ==> Count(s, x) <= r[n - 1].count) {
      var j :| 0 <= j < |vc| && Values(vc)[j] == x;
      assert j >= |r|;
      if n > 0 {
        assert vc[n - 1] == r[n - 1];
      }
    }
  }
}
