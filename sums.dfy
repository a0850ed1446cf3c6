/** Sums of rank maps along a dictionary's iteration order, and the facts
    about them that the distribution and normalisation proofs use. */
module Sums {
  import opened Corpus

  /** Sum of `m` over the pages of `order`, accumulated front to back as the
      source's running totals are. */
  function Sum(order: seq<Page>, m: RankMap): real
    requires forall i :: 0 <= i < |order| ==> order[i] in m
    decreases |order|
  {
    if order == [] then 0.0 else Sum(order[..|order| - 1], m) + m[order[|order| - 1]]
  }

  /** A map with the constant value `k` sums to `k` times the number of pages. */
  lemma {:induction false} SumConst(order: seq<Page>, m: RankMap, k: real)
    requires forall i :: 0 <= i < |order| ==> order[i] in m && m[order[i]] == k
    ensures Sum(order, m) == k * |order| as real
    decreases |order|
  {
    if order != [] {
      SumConst(order[..|order| - 1], m, k);
    }
  }

  /** The sum of a pointwise sum is the sum of the sums. */
  lemma {:induction false} SumAdd(order: seq<Page>, a: RankMap, b: RankMap, r: RankMap)
    requires forall i :: 0 <= i < |order| ==>
      order[i] in a && order[i] in b && order[i] in r && r[order[i]] == a[order[i]] + b[order[i]]
    ensures Sum(order, r) == Sum(order, a) + Sum(order, b)
    decreases |order|
  {
    if order != [] {
      SumAdd(order[..|order| - 1], a, b, r);
    }
  }

  /** Dividing every value by `k` divides the sum by `k`. */
  lemma {:induction false} SumDivide(order: seq<Page>, a: RankMap, r: RankMap, k: real)
    requires k != 0.0
    requires forall i :: 0 <= i < |order| ==> order[i] in a && order[i] in r && r[order[i]] == a[order[i]] / k
    ensures Sum(order, r) == Sum(order, a) / k
    decreases |order|
  {
    if order != [] {
      var n := |order| - 1;
      SumDivide(order[..n], a, r, k);
      DivideAdd(Sum(order[..n], a), a[order[n]], k);
    }
  }

  lemma DivideAdd(x: real, y: real, k: real)
    requires k != 0.0
    ensures x / k + y / k == (x + y) / k
  {
  }

  /** How many entries of `order` are pages of `L`. */
  function CountIn(order: seq<Page>, L: set<Page>): nat
    decreases |order|
  {
    if order == [] then 0 else CountIn(order[..|order| - 1], L) + (if order[|order| - 1] in L then 1 else 0)
  }

  /** An order lists each of its keys once, so it meets a set `L` as often as
      `L` shares pages with the keys. */
  lemma {:induction false} CountInKeys(order: seq<Page>, keys: set<Page>, L: set<Page>)
    requires IsOrder(order, keys)
    ensures CountIn(order, L) == |L * keys|
    decreases |order|
  {
    if order != [] {
      var n := |order| - 1;
      var x := order[n];
      DropLast(order, keys);
      CountInKeys(order[..n], keys - {x}, L);
      assert x in keys;
      if x in L {
        assert L * keys == (L * (keys - {x})) + {x};
      } else {
        assert L * keys == L * (keys - {x});
      }
    }
  }

  /** A map worth `k` on the pages of `L` and 0 elsewhere sums to `k` for
      every entry of `order` in `L`. */
  lemma {:induction false} SumIndicatorCount(order: seq<Page>, m: RankMap, L: set<Page>, k: real)
    requires forall i :: 0 <= i < |order| ==>
      order[i] in m && m[order[i]] == (if order[i] in L then k else 0.0)
    ensures Sum(order, m) == k * CountIn(order, L) as real
    decreases |order|
  {
    if order != [] {
      var n := |order| - 1;
      SumIndicatorCount(order[..n], m, L, k);
      var c := CountIn(order[..n], L);
      if order[n] in L {
        assert k * c as real + k == k * (c + 1) as real;
      }
    }
  }

  /** A map worth `k` on the pages of `L` and 0 elsewhere sums to `k` times the
      number of pages of `L`, when `order` lists every page of `L`. */
  lemma SumIndicator(order: seq<Page>, keys: set<Page>, m: RankMap, L: set<Page>, k: real)
    requires IsOrder(order, keys) && L <= keys
    requires forall i :: 0 <= i < |order| ==>
      order[i] in m && m[order[i]] == (if order[i] in L then k else 0.0)
    ensures Sum(order, m) == k * |L| as real
  {
    CountOfSubset(order, keys, L);
    SumIndicatorTimes(order, m, L, k, |L|);
  }

  /** An order meets a subset of its keys once per page of the subset. */
  lemma CountOfSubset(order: seq<Page>, keys: set<Page>, L: set<Page>)
    requires IsOrder(order, keys) && L <= keys
    ensures CountIn(order, L) == |L|
  {
    CountInKeys(order, keys, L);
    assert L * keys == L;
  }

  lemma SumIndicatorTimes(order: seq<Page>, m: RankMap, L: set<Page>, k: real, n: nat)
    requires CountIn(order, L) == n
    requires forall i :: 0 <= i < |order| ==>
      order[i] in m && m[order[i]] == (if order[i] in L then k else 0.0)
    ensures Sum(order, m) == k * n as real
  {
    SumIndicatorCount(order, m, L, k);
  }

  /** A map bounded below by `k` sums to at least `k` times the number of pages. */
  lemma {:induction false} SumAtLeast(order: seq<Page>, m: RankMap, k: real)
    requires forall i :: 0 <= i < |order| ==> order[i] in m && m[order[i]] >= k
    ensures Sum(order, m) >= k * |order| as real
    decreases |order|
  {
    if order != [] {
      SumAtLeast(order[..|order| - 1], m, k);
    }
  }
}
