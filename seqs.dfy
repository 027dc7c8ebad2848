/** Generic sequence operations used by the catalog queries and the statistics cards:
    filtering (a `WHERE` clause), ordering by a key descending (`ORDER BY … DESC`) and summing
    (`Array.prototype.reduce` with `+`). */
module Seqs {

  /** The elements of `xs` that satisfy `p`, in their original order. */
  function Filter<T(!new)>(xs: seq<T>, p: T -> bool): (r: seq<T>)
    ensures |r| <= |xs|
    ensures forall x :: multiset(r)[x] == if p(x) then multiset(xs)[x] else 0
    ensures forall x :: x in r <==> x in xs && p(x)
  {
    if xs == [] then []
    else
      assert xs == [xs[0]] + xs[1..];
      (if p(xs[0]) then [xs[0]] else []) + Filter(xs[1..], p)
  }

  lemma FilterCons<T(!new)>(x: T, xs: seq<T>, p: T -> bool)
    ensures Filter([x] + xs, p) == (if p(x) then [x] else []) + Filter(xs, p)
  {
    assert ([x] + xs)[1..] == xs;
  }

  /** `xs[k]` is the one element of `xs` that satisfies `p`. */
  ghost predicate OnlyAt<T>(xs: seq<T>, p: T -> bool, k: int) {
    0 <= k < |xs| && p(xs[k]) && forall j :: 0 <= j < |xs| && j != k ==> !p(xs[j])
  }

  /** When exactly one element satisfies `p`, the filter keeps just that element. */
  lemma {:induction false} FilterOnly<T(!new)>(xs: seq<T>, p: T -> bool, k: int)
    requires OnlyAt(xs, p, k)
    ensures Filter(xs, p) == [xs[k]]
  {
    if k == 0 {
      assert forall x :: x in xs[1..] ==> !p(x);
      assert Filter(xs[1..], p) == [];
    } else {
      assert OnlyAt(xs[1..], p, k - 1);
      FilterOnly(xs[1..], p, k - 1);
    }
  }

  /** When two elements satisfy `p`, the filter keeps at least two. */
  lemma {:induction false} FilterTwo<T(!new)>(xs: seq<T>, p: T -> bool, i: int, j: int)
    requires 0 <= i < j < |xs| && p(xs[i]) && p(xs[j])
    ensures |Filter(xs, p)| >= 2
  {
    if i == 0 {
      assert xs[j] in xs[1..];
      assert xs[j] in Filter(xs[1..], p);
    } else {
      FilterTwo(xs[1..], p, i - 1, j - 1);
    }
  }

  lemma FilterOnlyAll<T(!new)>(xs: seq<T>, p: T -> bool)
    ensures forall k :: OnlyAt(xs, p, k) ==> Filter(xs, p) == [xs[k]]
  {
    forall k | OnlyAt(xs, p, k) ensures Filter(xs, p) == [xs[k]] {
      FilterOnly(xs, p, k);
    }
  }

  lemma FilterTwoAll<T(!new)>(xs: seq<T>, p: T -> bool)
    ensures forall i, j :: 0 <= i < j < |xs| && p(xs[i]) && p(xs[j]) ==> |Filter(xs, p)| >= 2
  {
    forall i, j | 0 <= i < j < |xs| && p(xs[i]) && p(xs[j]) ensures |Filter(xs, p)| >= 2 {
      FilterTwo(xs, p, i, j);
    }
  }

  /** Every element has a key no smaller than the key of any element after it. */
  ghost predicate SortedDesc<T>(xs: seq<T>, key: T -> int) {
    forall i, j :: 0 <= i < j < |xs| ==> key(xs[i]) >= key(xs[j])
  }

  /** Inserts `x` before the first element whose key is not larger than `x`'s. */
  function InsertDesc<T>(x: T, xs: seq<T>, key: T -> int): (r: seq<T>)
    ensures |r| == |xs| + 1
    ensures multiset(r) == multiset(xs) + multiset{x}
  {
    if xs == [] || key(x) >= key(xs[0]) then [x] + xs
    else
      assert xs == [xs[0]] + xs[1..];
      [xs[0]] + InsertDesc(x, xs[1..], key)
  }

  lemma {:induction false} InsertDescSorted<T>(x: T, xs: seq<T>, key: T -> int)
    requires SortedDesc(xs, key)
    ensures SortedDesc(InsertDesc(x, xs, key), key)
  {
    if xs != [] && key(x) < key(xs[0]) {
      var rest := InsertDesc(x, xs[1..], key);
      InsertDescSorted(x, xs[1..], key);
      forall e | e in rest ensures key(xs[0]) >= key(e) {
        assert e in multiset(rest);
        if e != x {
          assert e in multiset(xs[1..]);
          var k :| 0 <= k < |xs[1..]| && xs[1..][k] == e;
          assert xs[k + 1] == e;
        }
      }
      assert forall j :: 0 < j < |rest| + 1 ==> ([xs[0]] + rest)[j] in rest;
    }
  }

  /** A stable insertion sort, newest (largest key) first. */
  function SortDesc<T>(xs: seq<T>, key: T -> int): (r: seq<T>)
    ensures |r| == |xs|
    ensures multiset(r) == multiset(xs)
    ensures SortedDesc(r, key)
  {
    if xs == [] then []
    else
      assert xs == [xs[0]] + xs[1..];
      InsertDescSorted(xs[0], SortDesc(xs[1..], key), key);
      InsertDesc(xs[0], SortDesc(xs[1..], key), key)
  }

  /** The sum of `w` over `xs`. */
  function SumOf<T>(xs: seq<T>, w: T -> nat): nat {
    if xs == [] then 0 else w(xs[0]) + SumOf(xs[1..], w)
  }

  lemma {:induction false} SumOfAppend<T>(xs: seq<T>, ys: seq<T>, w: T -> nat)
    ensures SumOf(xs + ys, w) == SumOf(xs, w) + SumOf(ys, w)
  {
    if xs != [] {
      assert (xs + ys)[1..] == xs[1..] + ys;
      SumOfAppend(xs[1..], ys, w);
    } else {
      assert xs + ys == ys;
    }
  }

  lemma {:induction false} SumOfInsert<T>(x: T, xs: seq<T>, key: T -> int, w: T -> nat)
    ensures SumOf(InsertDesc(x, xs, key), w) == w(x) + SumOf(xs, w)
  {
    if xs == [] || key(x) >= key(xs[0]) {
      assert ([x] + xs)[1..] == xs;
    } else {
      var rest := InsertDesc(x, xs[1..], key);
      assert ([xs[0]] + rest)[1..] == rest;
      SumOfInsert(x, xs[1..], key, w);
    }
  }

  /** Ordering a list does not change its sum. */
  lemma {:induction false} SumOfSort<T>(xs: seq<T>, key: T -> int, w: T -> nat)
    ensures SumOf(SortDesc(xs, key), w) == SumOf(xs, w)
  {
    if xs != [] {
      SumOfSort(xs[1..], key, w);
      SumOfInsert(xs[0], SortDesc(xs[1..], key), key, w);
    }
  }

  function One<T>(x: T): nat { 1 }

  /** Counting is summing ones. */
  lemma {:induction false} SumOfOnes<T>(xs: seq<T>)
    ensures SumOf(xs, One) == |xs|
  {
    if xs != [] {
      SumOfOnes(xs[1..]);
    }
  }

  /** No value occurs twice. */
  ghost predicate Distinct<T>(xs: seq<T>) {
    forall i, j :: 0 <= i < j < |xs| ==> xs[i] != xs[j]
  }
}
