/** `iterate_pagerank`, `formula`, `summing` and `check_differences`: the
    iterative solver. Each sweep overwrites the ranks page by page in corpus
    order, so a page later in the sweep reads the values already updated
    earlier in it; the changes of a sweep are measured against a copy taken
    before it and rounded to three decimals. */
module Solver {
  import opened Corpus
  import opened Sums
  import opened Transition

  /** What one page passes on to each page it links to: its rank divided by
      its number of links, or by the number of pages when it has none. */
  function Share(c: Links, ranks: RankMap, p: Page): real
    requires p in c && p in ranks
  {
    ranks[p] / (if |c[p]| == 0 then |c| else |c[p]|) as real
  }

  /** The pages of `order` that link to `key`, in the order of `order`. */
  function Predecessors(c: Links, order: seq<Page>, key: Page): (r: seq<Page>)
    requires Within(order, c.Keys)
    ensures forall p :: p in r <==> p in order && key in c[p]
    ensures forall i :: 0 <= i < |r| ==> r[i] in c && c[r[i]] != {}
    decreases |order|
  {
    if order == [] then []
    else
      var n := |order| - 1;
      Predecessors(c, order[..n], key) + (if key in c[order[n]] then [order[n]] else [])
  }

  /** What the pages of `preds` pass on, accumulated front to back as
      `summing` does. */
  function Inflow(c: Links, ranks: RankMap, preds: seq<Page>): real
    requires forall i :: 0 <= i < |preds| ==> preds[i] in c && preds[i] in ranks
    decreases |preds|
  {
    if preds == [] then 0.0
    else Inflow(c, ranks, preds[..|preds| - 1]) + Share(c, ranks, preds[|preds| - 1])
  }

  /** The rank `formula` computes for a page whose predecessors are `preds`:
      the teleport share plus the damped inflow. */
  function NewRank(c: Links, d: real, ranks: RankMap, preds: seq<Page>): real
    requires |c| > 0
    requires forall i :: 0 <= i < |preds| ==> preds[i] in c && preds[i] in ranks
  {
    (1.0 - d) / |c| as real + d * Inflow(c, ranks, preds)
  }

  /** The arithmetic of line 168 of `formula` yields `NewRank`. */
  lemma RankFromInflow(c: Links, d: real, ranks: RankMap, preds: seq<Page>, inflow: real)
    requires |c| > 0
    requires forall i :: 0 <= i < |preds| ==> preds[i] in c && preds[i] in ranks
    requires inflow == Inflow(c, ranks, preds)
    ensures (1.0 - d) / |c| as real + d * inflow == NewRank(c, d, ranks, preds)
  {
  }

  /** The rank `formula` computes for `key` from the ranks `ranks`. */
  function RankOf(c: Links, order: seq<Page>, d: real, ranks: RankMap, key: Page): real
    requires Within(order, c.Keys) && c.Keys <= ranks.Keys && key in c
  {
    NewRank(c, d, ranks, Predecessors(c, order, key))
  }

  /** The inner loop of `formula`: the pages of the corpus whose links
      contain `key`, in corpus order. */
  method CollectPredecessors(c: Links, order: seq<Page>, key: Page) returns (preds: seq<Page>)
    requires Within(order, c.Keys)
    ensures preds == Predecessors(c, order, key)
  {
    preds := [];
    for i := 0 to |order|
      invariant preds == Predecessors(c, order[..i], key)
    {
      assert order[..i + 1][..i] == order[..i];
      if key in c[order[i]] {
        preds := preds + [order[i]];
      }
    }
    assert order[..|order|] == order;
  }

  /** `summing`: 0 for no predecessors, otherwise the shares of all of them. */
  method Summing(preds: seq<Page>, ranks: RankMap, c: Links) returns (total: real)
    requires forall i :: 0 <= i < |preds| ==> preds[i] in c && preds[i] in ranks
    ensures preds == [] ==> total == 0.0
    ensures total == Inflow(c, ranks, preds)
  {
    if |preds| == 0 {
      return 0.0;
    }
    total := 0.0;
    for i := 0 to |preds|
      invariant total == Inflow(c, ranks, preds[..i])
    {
      assert preds[..i + 1][..i] == preds[..i];
      var numLinks := if |c[preds[i]]| == 0 then |c| else |c[preds[i]]|;
      var share := ranks[preds[i]] / numLinks as real;
      total := total + share;
    }
    assert preds[..|preds|] == preds;
  }

  /** `m` after the first `k` entries of `order` have been overwritten in
      turn, each with the value `f` computes from the map as it stands at
      that entry's turn. */
  function Overwrite(m: RankMap, order: seq<Page>, f: (RankMap, Page) -> real, k: nat): (r: RankMap)
    requires k <= |order|
    ensures m.Keys <= r.Keys
    decreases k
  {
    if k == 0 then m
    else
      var before := Overwrite(m, order, f, k - 1);
      before[order[k - 1] := f(before, order[k - 1])]
  }

  /** Overwriting entries that are already keys adds no key. */
  lemma {:induction false} OverwriteKeys(m: RankMap, order: seq<Page>, f: (RankMap, Page) -> real, k: nat)
    requires k <= |order| && Within(order, m.Keys)
    ensures Overwrite(m, order, f, k).Keys == m.Keys
    decreases k
  {
    if k > 0 {
      OverwriteKeys(m, order, f, k - 1);
    }
  }

  /** Before its turn an entry keeps its old value; from its turn on it keeps
      the value computed at its turn. */
  lemma {:induction false} OverwriteValue(m: RankMap, order: seq<Page>, f: (RankMap, Page) -> real, k: nat, j: nat)
    requires Distinct(order) && Within(order, m.Keys) && k <= |order| && j < |order|
    ensures j >= k ==> Overwrite(m, order, f, k)[order[j]] == m[order[j]]
    ensures j < k ==> Overwrite(m, order, f, k)[order[j]] == f(Overwrite(m, order, f, j), order[j])
    decreases k
  {
    OverwriteKeys(m, order, f, k);
    if k > 0 {
      OverwriteKeys(m, order, f, k - 1);
      OverwriteValue(m, order, f, k - 1, j);
      if j != k - 1 {
        assert order[j] != order[k - 1];
      }
    }
  }

  /** The update `formula` applies to each page in turn. It is only ever
      applied to a page of the corpus and to ranks covering the corpus; the
      value 0 for anything else is never used. */
  function Rule(c: Links, order: seq<Page>, d: real): (RankMap, Page) -> real
  {
    (ranks: RankMap, key: Page) =>
      if key in c && c.Keys <= ranks.Keys && (forall i | 0 <= i < |order| :: order[i] in c)
      then RankOf(c, order, d, ranks, key) else 0.0
  }

  /** The ranks after the first `k` pages of a sweep have been updated in place. */
  function SweepFrom(c: Links, order: seq<Page>, d: real, ranks: RankMap, k: nat): (r: RankMap)
    requires k <= |order|
    ensures ranks.Keys <= r.Keys
  {
    Overwrite(ranks, order, Rule(c, order, d), k)
  }

  /** One full sweep of `formula` over the corpus. */
  function Sweep(c: Links, order: seq<Page>, d: real, ranks: RankMap): (r: RankMap)
    ensures ranks.Keys <= r.Keys
  {
    SweepFrom(c, order, d, ranks, |order|)
  }

  /** A sweep keeps the key set of the ranks. */
  lemma SweepKeys(c: Links, order: seq<Page>, d: real, ranks: RankMap, k: nat)
    requires Within(order, c.Keys) && c.Keys <= ranks.Keys && k <= |order|
    ensures SweepFrom(c, order, d, ranks, k).Keys == ranks.Keys
    ensures Sweep(c, order, d, ranks).Keys == ranks.Keys
  {
    OverwriteKeys(ranks, order, Rule(c, order, d), k);
    OverwriteKeys(ranks, order, Rule(c, order, d), |order|);
  }

  /** The in-place update of `formula`: the page at position `k` is computed
      from the ranks in which the pages before it already hold their new
      values and the pages after it still hold their old ones. */
  lemma GaussSeidel(c: Links, order: seq<Page>, d: real, ranks: RankMap, k: nat, j: nat)
    requires Distinct(order) && Within(order, c.Keys) && c.Keys <= ranks.Keys && k < |order| && j < |order|
    ensures c.Keys <= SweepFrom(c, order, d, ranks, k).Keys
    ensures Sweep(c, order, d, ranks)[order[k]] ==
      RankOf(c, order, d, SweepFrom(c, order, d, ranks, k), order[k])
    ensures SweepFrom(c, order, d, ranks, k)[order[j]] ==
      if j < k then Sweep(c, order, d, ranks)[order[j]] else ranks[order[j]]
  {
    var f := Rule(c, order, d);
    assert Within(order, ranks.Keys);
    SweepKeys(c, order, d, ranks, k);
    OverwriteValue(ranks, order, f, |order|, k);
    OverwriteValue(ranks, order, f, k, j);
    OverwriteValue(ranks, order, f, |order|, j);
  }

  /** The sweep loop of `formula`: each page in corpus order gets the rank
      computed from its predecessors' current ranks. */
  method SweepInPlace(c: Links, order: seq<Page>, d: real, ranks0: RankMap) returns (ranks: RankMap)
    requires Within(order, c.Keys) && c.Keys <= ranks0.Keys
    ensures ranks == Sweep(c, order, d, ranks0)
  {
    ranks := ranks0;
    for i := 0 to |order|
      invariant ranks == SweepFrom(c, order, d, ranks0, i)
      invariant ranks.Keys == ranks0.Keys
    {
      var key := order[i];
      var pageI := CollectPredecessors(c, order, key);
      var inflow := Summing(pageI, ranks, c);
      var pageRank := (1.0 - d) / |c| as real + d * inflow;
      RankFromInflow(c, d, ranks, pageI, inflow);
      assert pageRank == Rule(c, order, d)(ranks, key);
      ranks := ranks[key := pageRank];
    }
  }

  /** Values that are not negative pass on shares that are not negative. */
  lemma {:induction false} InflowNonNegative(c: Links, ranks: RankMap, preds: seq<Page>)
    requires forall i :: 0 <= i < |preds| ==> preds[i] in c && preds[i] in ranks && ranks[preds[i]] >= 0.0
    ensures Inflow(c, ranks, preds) >= 0.0
    decreases |preds|
  {
    if preds != [] {
      var n := |preds| - 1;
      InflowNonNegative(c, ranks, preds[..n]);
      var p := preds[n];
      QuotientNonNegative(ranks[p], (if |c[p]| == 0 then |c| else |c[p]|));
    }
  }

  lemma QuotientNonNegative(x: real, n: nat)
    ensures x >= 0.0 && n > 0 ==> x / n as real >= 0.0
  {
  }

  /** With `0 <= d` and ranks that are not negative, a page gets at least the
      teleport share `(1 - d) / N`. */
  lemma RankAtLeastTeleport(c: Links, order: seq<Page>, d: real, ranks: RankMap, key: Page)
    requires Within(order, c.Keys) && c.Keys <= ranks.Keys && key in c && 0.0 <= d
    requires forall p :: p in c ==> ranks[p] >= 0.0
    ensures RankOf(c, order, d, ranks, key) >= (1.0 - d) / |c| as real
  {
    var preds := Predecessors(c, order, key);
    InflowNonNegative(c, ranks, preds);
    DampedNonNegative(d, Inflow(c, ranks, preds));
  }

  lemma DampedNonNegative(d: real, x: real)
    requires 0.0 <= d && 0.0 <= x
    ensures d * x >= 0.0
  {
  }

  /** For `N > 0` and `d <= 1` the teleport share is not negative; for `d < 1`
      it is positive. */
  lemma TeleportShare(d: real, n: nat)
    requires n > 0
    ensures d <= 1.0 ==> (1.0 - d) / n as real >= 0.0
    ensures d < 1.0 ==> (1.0 - d) / n as real > 0.0
  {
  }

  /** A sweep from ranks that are not negative keeps them so, for `0 <= d <= 1`. */
  lemma {:induction false} SweepFromNonNegative(c: Links, order: seq<Page>, d: real, ranks: RankMap, k: nat)
    requires Within(order, c.Keys) && c.Keys <= ranks.Keys && k <= |order| && 0.0 <= d <= 1.0
    requires forall p :: p in c ==> ranks[p] >= 0.0
    ensures forall p :: p in c ==> SweepFrom(c, order, d, ranks, k)[p] >= 0.0
    decreases k
  {
    if k > 0 {
      SweepFromNonNegative(c, order, d, ranks, k - 1);
      var before := SweepFrom(c, order, d, ranks, k - 1);
      var key := order[k - 1];
      RankAtLeastTeleport(c, order, d, before, key);
      TeleportShare(d, |c|);
      assert SweepFrom(c, order, d, ranks, k) == before[key := Rule(c, order, d)(before, key)];
    }
  }

  /** After a sweep from ranks that are not negative, with `0 <= d <= 1`,
      every page of the corpus has at least the teleport share `(1 - d) / N`. */
  lemma SweepAtLeastTeleport(c: Links, order: seq<Page>, d: real, ranks: RankMap)
    requires IsOrder(order, c.Keys) && c.Keys <= ranks.Keys && 0.0 <= d <= 1.0
    requires forall p :: p in c ==> ranks[p] >= 0.0
    ensures forall p :: p in c ==> Sweep(c, order, d, ranks)[p] >= (1.0 - d) / |c| as real
  {
    forall p | p in c
      ensures Sweep(c, order, d, ranks)[p] >= (1.0 - d) / |c| as real
    {
      var k := IndexOf(order, c.Keys, p);
      GaussSeidel(c, order, d, ranks, k, k);
      SweepFromNonNegative(c, order, d, ranks, k);
      RankAtLeastTeleport(c, order, d, SweepFrom(c, order, d, ranks, k), p);
    }
  }

  /** `n` sweeps of `formula`, one after the other. */
  function Sweeps(c: Links, order: seq<Page>, d: real, ranks: RankMap, n: nat): (r: RankMap)
    ensures ranks.Keys <= r.Keys
    decreases n
  {
    if n == 0 then ranks else Sweep(c, order, d, Sweeps(c, order, d, ranks, n - 1))
  }

  /** Sweeps keep the key set of the ranks. */
  lemma {:induction false} SweepsKeys(c: Links, order: seq<Page>, d: real, ranks: RankMap, n: nat)
    requires Within(order, c.Keys) && c.Keys <= ranks.Keys
    ensures Sweeps(c, order, d, ranks, n).Keys == ranks.Keys
    decreases n
  {
    if n > 0 {
      SweepsKeys(c, order, d, ranks, n - 1);
      SweepKeys(c, order, d, Sweeps(c, order, d, ranks, n - 1), 0);
    }
  }

  /** After at least one sweep from ranks that are not negative, with
      `0 <= d <= 1`, every page has at least the teleport share. */
  lemma {:induction false} SweepsAtLeastTeleport(c: Links, order: seq<Page>, d: real, ranks: RankMap, n: nat)
    requires IsOrder(order, c.Keys) && c.Keys <= ranks.Keys && 0.0 <= d <= 1.0
    requires forall p :: p in c ==> ranks[p] >= 0.0
    ensures n > 0 ==> forall p :: p in c ==> Sweeps(c, order, d, ranks, n)[p] >= (1.0 - d) / |c| as real
    ensures forall p :: p in c ==> Sweeps(c, order, d, ranks, n)[p] >= 0.0
    decreases n
  {
    if n > 0 {
      SweepsAtLeastTeleport(c, order, d, ranks, n - 1);
      var before := Sweeps(c, order, d, ranks, n - 1);
      SweepAtLeastTeleport(c, order, d, before);
      forall p | p in c ensures Sweeps(c, order, d, ranks, n)[p] >= 0.0 {
        TeleportShare(d, |c|);
      }
    }
  }

  /** `format(x, '.3f')` read back by `float`: `x` rounded to three
      decimals, a tie going to the even last digit as `'.3f'` formatting
      does. The result is a whole number of thousandths, at most half a
      thousandth away from `x`. */
  function Round3(x: real): (r: real)
    ensures x - 0.0005 <= r <= x + 0.0005
    ensures (r * 1000.0).Floor as real == r * 1000.0
  {
    var k := Thousandths(x);
    ThousandthsExact(x, k);
    k as real / 1000.0
  }

  /** `x` in thousandths, rounded to the nearest whole number, a tie going
      to the even one. */
  function Thousandths(x: real): (k: int)
    ensures x * 1000.0 - 0.5 <= k as real <= x * 1000.0 + 0.5
  {
    var f := (x * 1000.0).Floor;
    var rest := x * 1000.0 - f as real;
    if rest > 0.5 || (rest == 0.5 && f % 2 == 1) then f + 1 else f
  }

  lemma ThousandthsExact(x: real, k: int)
    requires x * 1000.0 - 0.5 <= k as real <= x * 1000.0 + 0.5
    ensures x - 0.0005 <= k as real / 1000.0 <= x + 0.0005
    ensures ((k as real / 1000.0) * 1000.0).Floor as real == (k as real / 1000.0) * 1000.0
  {
    assert (k as real / 1000.0) * 1000.0 == k as real;
  }

  /** An exact tie goes to the even number of thousandths, as `'.3f'`
      formatting does: 0.0625 becomes 0.062 and 0.0635 becomes 0.064. */
  lemma Round3TiesToEven(x: real)
    requires x * 1000.0 - (x * 1000.0).Floor as real == 0.5
    ensures Thousandths(x) % 2 == 0
    ensures Round3(x) * 1000.0 == Thousandths(x) as real
    ensures Round3(0.0625) == 0.062 && Round3(0.0635) == 0.064
  {
    assert (0.0625 * 1000.0).Floor == 62;
    assert (0.0635 * 1000.0).Floor == 63;
  }

  function Abs(x: real): real
  {
    if x < 0.0 then -x else x
  }

  /** A rounded change exceeds 0.001 exactly when the change is at least
      0.0015. The one tie at the threshold, 0.0015, goes to 0.002. */
  lemma Round3Exceeds(x: real)
    ensures Round3(x) > 0.001 <==> x >= 0.0015
  {
    var f := (x * 1000.0).Floor;
    assert f as real <= x * 1000.0 < f as real + 1.0;
    assert Round3(x) == Thousandths(x) as real / 1000.0;
    if x >= 0.0015 {
      assert f >= 1;
    } else {
      assert f <= 1;
    }
  }

  /** The rounded change of every page in `keys` between `before` and
      `after`: what the second loop of `formula` writes into `differences`. */
  function Changes(keys: set<Page>, before: RankMap, after: RankMap): (r: map<Page, real>)
    requires keys <= before.Keys && keys <= after.Keys
  {
    map p | p in keys :: Round3(Abs(after[p] - before[p]))
  }

  /** `check_differences`: some rounded change exceeds 0.001. */
  function CheckDifferences(differences: map<Page, real>): bool
  {
    exists p | p in differences :: differences[p] > 0.001
  }

  /** `x` is a whole number of thousandths, as every value `Round3` yields. */
  ghost predicate WholeThousandths(x: real)
  {
    (x * 1000.0).Floor as real == x * 1000.0
  }

  /** On differences that are whole thousandths, as the rounded changes of
      `formula` are, `check_differences` finds a change exactly when some
      difference is at least 0.002. */
  lemma CheckOnThousandths(differences: map<Page, real>)
    requires forall p :: p in differences ==> WholeThousandths(differences[p])
    ensures CheckDifferences(differences) <==> exists p :: p in differences && differences[p] >= 0.002
  {
    forall p | p in differences
      ensures differences[p] > 0.001 <==> differences[p] >= 0.002
    {
      ThousandthAbove(differences[p]);
    }
  }

  /** Every rounded change is a whole number of thousandths, so the check of
      `formula` on them is a test for a change of at least 0.002. */
  lemma ChangesAreThousandths(keys: set<Page>, before: RankMap, after: RankMap)
    requires keys <= before.Keys && keys <= after.Keys
    ensures forall p :: p in keys ==> WholeThousandths(Changes(keys, before, after)[p])
    ensures CheckDifferences(Changes(keys, before, after)) <==>
      exists p :: p in keys && Changes(keys, before, after)[p] >= 0.002
  {
    CheckOnThousandths(Changes(keys, before, after));
  }

  /** A whole number of thousandths above 0.001 is at least 0.002. */
  lemma ThousandthAbove(v: real)
    requires WholeThousandths(v)
    ensures v > 0.001 <==> v >= 0.002
  {
    var k := (v * 1000.0).Floor;
    assert v == k as real / 1000.0;
  }

  /** `formula` stops after a sweep exactly when no page changed by 0.0015
      or more. */
  lemma SettledIffSmallChanges(keys: set<Page>, before: RankMap, after: RankMap)
    requires keys <= before.Keys && keys <= after.Keys
    ensures !CheckDifferences(Changes(keys, before, after)) <==>
      forall p :: p in keys ==> Abs(after[p] - before[p]) < 0.0015
  {
    forall p | p in keys
      ensures Changes(keys, before, after)[p] > 0.001 <==> Abs(after[p] - before[p]) >= 0.0015
    {
      Round3Exceeds(Abs(after[p] - before[p]));
    }
  }

  /** The second loop of `formula`: every entry of `differences` becomes the
      rounded change of its page between the copy and the swept ranks. */
  method MeasureChanges(differences: map<Page, real>, ranks: RankMap, newRank: RankMap)
    returns (diffs: map<Page, real>)
    requires differences.Keys <= ranks.Keys && differences.Keys <= newRank.Keys
    ensures diffs == Changes(differences.Keys, newRank, ranks)
  {
    diffs := differences;
    var todo := differences.Keys;
    while todo != {}
      invariant todo <= differences.Keys
      invariant diffs.Keys == differences.Keys
      invariant forall p :: p in diffs && p !in todo ==> diffs[p] == Round3(Abs(ranks[p] - newRank[p]))
      decreases todo
    {
      var key :| key in todo;
      diffs := diffs[key := Round3(Abs(ranks[key] - newRank[key]))];
      todo := todo - {key};
    }
  }

  /** The `differences` that `formula` holds after `n` sweeps from `ranks`
      and `differences`. */
  function DifferencesAfter(c: Links, order: seq<Page>, d: real, ranks: RankMap,
                            differences: map<Page, real>, n: nat): map<Page, real>
    requires differences.Keys <= ranks.Keys
  {
    if n == 0 then differences
    else Changes(differences.Keys, Sweeps(c, order, d, ranks, n - 1), Sweeps(c, order, d, ranks, n))
  }

  /** Every one of the first `k` checks of `formula` found a change above 0.001. */
  ghost predicate UnsettledBefore(c: Links, order: seq<Page>, d: real, ranks: RankMap,
                                  differences: map<Page, real>, k: nat)
    requires differences.Keys <= ranks.Keys
  {
    forall n :: 0 <= n < k ==> CheckDifferences(DifferencesAfter(c, order, d, ranks, differences, n))
  }

  lemma UnsettledOneMore(c: Links, order: seq<Page>, d: real, ranks: RankMap,
                         differences: map<Page, real>, k: nat)
    requires differences.Keys <= ranks.Keys
    requires UnsettledBefore(c, order, d, ranks, differences, k)
    requires CheckDifferences(DifferencesAfter(c, order, d, ranks, differences, k))
    ensures UnsettledBefore(c, order, d, ranks, differences, k + 1)
  {
  }

  /** One round of `formula`: a copy of the ranks, a sweep in place, and the
      rounded changes against the copy. */
  method FormulaRound(c: Links, order: seq<Page>, d: real, ranks0: RankMap, differences: map<Page, real>)
    returns (ranks: RankMap, diffs: map<Page, real>)
    requires Within(order, c.Keys) && c.Keys <= ranks0.Keys && differences.Keys <= ranks0.Keys
    ensures ranks == Sweep(c, order, d, ranks0)
    ensures diffs == Changes(differences.Keys, ranks0, ranks)
  {
    var newRank := ranks0;
    ranks := SweepInPlace(c, order, d, ranks0);
    diffs := MeasureChanges(differences, ranks, newRank);
  }

  /** The rounded changes of the next sweep, measured over the keys of the
      current differences, are the differences after one more sweep. */
  lemma NextDifferences(c: Links, order: seq<Page>, d: real, ranks0: RankMap,
                        differences: map<Page, real>, n: nat, diffs: map<Page, real>, next: map<Page, real>)
    requires Within(order, c.Keys) && c.Keys <= ranks0.Keys && differences.Keys <= ranks0.Keys
    requires diffs == DifferencesAfter(c, order, d, ranks0, differences, n)
    requires diffs.Keys == differences.Keys
    requires next == Changes(diffs.Keys, Sweeps(c, order, d, ranks0, n), Sweeps(c, order, d, ranks0, n + 1))
    ensures next == DifferencesAfter(c, order, d, ranks0, differences, n + 1)
    ensures next.Keys == differences.Keys
  {
  }

  /** Round `n + 1` of `formula`, on the ranks and differences after `n`
      rounds. */
  method FormulaStep(c: Links, order: seq<Page>, d: real, ranks0: RankMap, differences: map<Page, real>,
                     n: nat, ranks: RankMap, diffs: map<Page, real>)
    returns (ranks': RankMap, diffs': map<Page, real>)
    requires Within(order, c.Keys) && c.Keys <= ranks0.Keys && differences.Keys <= ranks0.Keys
    requires ranks == Sweeps(c, order, d, ranks0, n)
    requires diffs == DifferencesAfter(c, order, d, ranks0, differences, n)
    requires diffs.Keys == differences.Keys
    ensures ranks' == Sweeps(c, order, d, ranks0, n + 1)
    ensures diffs' == DifferencesAfter(c, order, d, ranks0, differences, n + 1)
    ensures diffs'.Keys == differences.Keys
  {
    SweepsKeys(c, order, d, ranks0, n);
    ranks', diffs' := FormulaRound(c, order, d, ranks, diffs);
    NextDifferences(c, order, d, ranks0, differences, n, diffs, diffs');
  }

  /** `formula`: sweeps while `check_differences` finds a change above 0.001.
      The source has no bound on the number of sweeps; `fuel` caps it and
      `settled` tells whether `formula` would have returned. */
  method Formula(c: Links, order: seq<Page>, d: real, ranks0: RankMap, differences: map<Page, real>, fuel: nat)
    returns (ranks: RankMap, diffs: map<Page, real>, sweeps: nat, settled: bool)
    requires Within(order, c.Keys) && c.Keys <= ranks0.Keys && differences.Keys <= ranks0.Keys
    ensures sweeps <= fuel
    ensures ranks == Sweeps(c, order, d, ranks0, sweeps)
    ensures diffs == DifferencesAfter(c, order, d, ranks0, differences, sweeps)
    ensures UnsettledBefore(c, order, d, ranks0, differences, sweeps)
    ensures settled <==> !CheckDifferences(diffs)
    ensures !settled ==> sweeps == fuel
  {
    ranks := ranks0;
    diffs := differences;
    sweeps := 0;
    settled := !CheckDifferences(diffs);
    while !settled && sweeps < fuel
      invariant sweeps <= fuel
      invariant ranks == Sweeps(c, order, d, ranks0, sweeps)
      invariant diffs == DifferencesAfter(c, order, d, ranks0, differences, sweeps)
      invariant diffs.Keys == differences.Keys
      invariant UnsettledBefore(c, order, d, ranks0, differences, sweeps)
      invariant settled <==> !CheckDifferences(diffs)
      decreases fuel - sweeps
    {
      UnsettledOneMore(c, order, d, ranks0, differences, sweeps);
      ranks, diffs := FormulaStep(c, order, d, ranks0, differences, sweeps, ranks, diffs);
      sweeps := sweeps + 1;
      settled := !CheckDifferences(diffs);
    }
  }

  /** What `iterate_pagerank` ends with: normalised ranks, the division by a
      zero total, or (for the fuel bound only) a `formula` that had not
      settled yet. */
  datatype Outcome = Ranked(ranks: RankMap) | ZeroDivisionError | OutOfFuel

  /** The final division of `iterate_pagerank`: every rank divided by the
      total of all ranks. A zero total raises as soon as there is a page to
      divide; with no page at all nothing is divided. */
  function Normalized(order: seq<Page>, m: RankMap): Outcome
    requires Within(order, m.Keys)
  {
    var total := Sum(order, m);
    if total == 0.0 then (if m == map[] then Ranked(m) else ZeroDivisionError)
    else Ranked(map p | p in m :: m[p] / total)
  }

  /** A successful division keeps the keys. */
  lemma NormalizedKeys(order: seq<Page>, m: RankMap)
    requires Within(order, m.Keys)
    ensures Normalized(order, m).Ranked? ==> Normalized(order, m).ranks.Keys == m.Keys
  {
  }

  /** The division fails exactly for a nonempty map whose ranks sum to 0. */
  lemma NormalizedFails(order: seq<Page>, m: RankMap)
    requires IsOrder(order, m.Keys)
    ensures !Normalized(order, m).OutOfFuel?
    ensures Normalized(order, m).ZeroDivisionError? <==> m != map[] && Sum(order, m) == 0.0
  {
    if order == [] {
      assert m == map[];
    } else {
      assert order[0] in m;
    }
  }

  /** For a nonempty map the division succeeds exactly when the total is not
      0, and then it divides every rank by the total. */
  lemma NormalizedRanks(order: seq<Page>, m: RankMap)
    requires IsOrder(order, m.Keys) && Normalized(order, m).Ranked? && m != map[]
    ensures Sum(order, m) != 0.0
    ensures Normalized(order, m).ranks.Keys == m.Keys
    ensures forall p :: p in m ==> Normalized(order, m).ranks[p] == m[p] / Sum(order, m)
  {
  }

  /** The division keeps the keys and makes the ranks sum to 1. */
  lemma NormalizedSumsToOne(order: seq<Page>, m: RankMap)
    requires IsOrder(order, m.Keys) && Normalized(order, m).Ranked? && m != map[]
    ensures Normalized(order, m).ranks.Keys == m.Keys
    ensures Sum(order, Normalized(order, m).ranks) == 1.0
  {
    NormalizedRanks(order, m);
    var total := Sum(order, m);
    SumDivide(order, m, Normalized(order, m).ranks, total);
    SelfQuotient(total);
  }

  /** The division scales every rank by the same factor, so the ratio
      between any two ranks stays as it was. */
  lemma NormalizedKeepsRatios(order: seq<Page>, m: RankMap, r: RankMap, p: Page, q: Page)
    requires IsOrder(order, m.Keys) && Normalized(order, m) == Ranked(r) && p in m && q in m
    ensures p in r && q in r
    ensures r[p] * m[q] == r[q] * m[p]
  {
    NormalizedRanks(order, m);
    var t := Sum(order, m);
    assert r[p] == m[p] / t && r[q] == m[q] / t;
    CrossQuotients(m[p], m[q], t);
  }

  lemma SelfQuotient(t: real)
    requires t != 0.0
    ensures t / t == 1.0
  {
  }

  lemma CrossQuotients(x: real, y: real, t: real)
    requires t != 0.0
    ensures x / t * y == y / t * x
  {
  }

  /** Dividing ranks that already sum to 1 changes nothing. */
  lemma NormalizedIdempotent(order: seq<Page>, m: RankMap)
    requires IsOrder(order, m.Keys) && Normalized(order, m).Ranked? && m != map[]
    ensures Normalized(order, Normalized(order, m).ranks) == Normalized(order, m)
  {
    NormalizedSumsToOne(order, m);
    var r := Normalized(order, m).ranks;
    assert (map p | p in r :: r[p] / 1.0) == r;
  }

  /** The last two loops of `iterate_pagerank`: the total of the ranks, then
      every rank divided by it in place. */
  method Normalize(order: seq<Page>, m: RankMap) returns (outcome: Outcome)
    requires IsOrder(order, m.Keys)
    ensures outcome == Normalized(order, m)
  {
    var total := Total(order, m);
    if total == 0.0 && |order| > 0 {
      return ZeroDivisionError;
    }
    if |order| == 0 {
      return Ranked(m);
    }
    var pageRanks := DivideAll(order, m, total);
    outcome := Ranked(pageRanks);
  }

  /** The summing loop of the final division: the total of all ranks. */
  method Total(order: seq<Page>, m: RankMap) returns (total: real)
    requires Within(order, m.Keys)
    ensures total == Sum(order, m)
  {
    total := 0.0;
    for i := 0 to |order|
      invariant total == Sum(order[..i], m)
    {
      assert order[..i + 1][..i] == order[..i];
      total := total + m[order[i]];
    }
    assert order[..|order|] == order;
  }

  /** The dividing loop of the final division: every rank, in place, divided
      by `total`. */
  method DivideAll(order: seq<Page>, m: RankMap, total: real) returns (pageRanks: RankMap)
    requires IsOrder(order, m.Keys) && total != 0.0
    ensures pageRanks == map p | p in m :: m[p] / total
  {
    pageRanks := m;
    for i := 0 to |order|
      invariant pageRanks.Keys == m.Keys
      invariant forall p :: p in m ==> pageRanks[p] == if p in order[..i] then m[p] / total else m[p]
    {
      pageRanks := pageRanks[order[i] := pageRanks[order[i]] / total];
      assert forall p :: p in order[..i + 1] <==> p in order[..i] || p == order[i];
      assert order[i] !in order[..i];
    }
    assert order[..|order|] == order;
  }

  /** The ranks `iterate_pagerank` starts from: `1 / N` for every page. */
  function Uniform(c: Links): (m: RankMap)
  {
    map p | p in c :: 1.0 / |c| as real
  }

  /** The `differences` `iterate_pagerank` starts from: 1000 for every page. */
  function Unmeasured(c: Links): (m: map<Page, real>)
  {
    map p | p in c :: 1000.0
  }

  /** The starting ranks form a distribution: every page gets `1/N` and
      the ranks sum to 1. */
  lemma UniformStart(c: Links, order: seq<Page>)
    requires IsOrder(order, c.Keys) && c != map[]
    ensures Uniform(c).Keys == c.Keys
    ensures Sum(order, Uniform(c)) == 1.0
  {
    OrderSize(order, c.Keys);
    var p :| p in c;
    assert p in order;
    UniformSumsToOne(order, c.Keys, Uniform(c));
  }

  /** With at least one page the first check always finds a change above
      0.001, so `formula` sweeps at least once. */
  lemma FirstCheckUnsettled(c: Links)
    requires c != map[]
    ensures CheckDifferences(Unmeasured(c))
  {
    var p :| p in c;
    assert Unmeasured(c)[p] > 0.001;
  }

  /** The first two loops of `iterate_pagerank`: `1 / N` for every page, and
      a difference of 1000 for every page. */
  method Start(c: Links, order: seq<Page>) returns (dictionary: RankMap, differences: map<Page, real>)
    requires IsOrder(order, c.Keys)
    ensures dictionary == Uniform(c)
    ensures differences == Unmeasured(c)
  {
    dictionary := map[];
    if |order| > 0 {
      assert order[0] in c;
      dictionary := Fill(order, 1.0 / |c| as real);
    }
    differences := Fill(order, 1000.0);
  }

  /** `iterate_pagerank`: uniform ranks, every difference at 1000, the sweeps
      of `formula`, then the division by the total. `sweeps` is how many
      sweeps ran; `OutOfFuel` means `formula` would have gone on sweeping. */
  method IteratePagerank(c: Links, order: seq<Page>, d: real, fuel: nat) returns (outcome: Outcome, sweeps: nat)
    requires IsOrder(order, c.Keys)
    ensures sweeps <= fuel
    ensures c != map[] && fuel > 0 ==> sweeps >= 1
    ensures UnsettledBefore(c, order, d, Uniform(c), Unmeasured(c), sweeps)
    ensures outcome ==
      if CheckDifferences(DifferencesAfter(c, order, d, Uniform(c), Unmeasured(c), sweeps)) then OutOfFuel
      else Normalized(order, Sweeps(c, order, d, Uniform(c), sweeps))
    ensures outcome.OutOfFuel? ==> sweeps == fuel
    ensures outcome.Ranked? ==> outcome.ranks.Keys == c.Keys
    ensures 0.0 <= d < 1.0 && c != map[] && !outcome.OutOfFuel? ==>
      outcome.Ranked? && Sum(order, outcome.ranks) == 1.0 &&
      forall p :: p in outcome.ranks ==> outcome.ranks[p] > 0.0
  {
    var dictionary, differences := Start(c, order);
    var pageRanks, diffs, settled;
    pageRanks, diffs, sweeps, settled := Formula(c, order, d, dictionary, differences, fuel);
    if c != map[] && fuel > 0 {
      FirstCheckUnsettled(c);
    }
    SweepsKeys(c, order, d, dictionary, sweeps);
    if !settled {
      return OutOfFuel, sweeps;
    }
    outcome := Conclude(c, order, d, pageRanks, sweeps);
  }

  /** The division that ends `iterate_pagerank`, once `formula` has settled
      after `sweeps` sweeps. */
  method Conclude(c: Links, order: seq<Page>, d: real, pageRanks: RankMap, sweeps: nat) returns (outcome: Outcome)
    requires IsOrder(order, c.Keys) && (c != map[] ==> sweeps > 0)
    requires pageRanks == Sweeps(c, order, d, Uniform(c), sweeps)
    ensures outcome == Normalized(order, pageRanks)
    ensures outcome.Ranked? ==> outcome.ranks.Keys == c.Keys
    ensures 0.0 <= d < 1.0 && c != map[] ==>
      outcome.Ranked? && Sum(order, outcome.ranks) == 1.0 &&
      forall p :: p in outcome.ranks ==> outcome.ranks[p] > 0.0
  {
    SweepsKeys(c, order, d, Uniform(c), sweeps);
    outcome := Normalize(order, pageRanks);
    NormalizedKeys(order, pageRanks);
    if 0.0 <= d < 1.0 && c != map[] {
      SettledRanksArePositive(c, order, d, sweeps);
    }
  }

  /** With `0 <= d < 1`, once `formula` has swept a nonempty corpus the
      division succeeds, the ranks sum to 1 and every rank is positive. */
  lemma SettledRanksArePositive(c: Links, order: seq<Page>, d: real, sweeps: nat)
    requires IsOrder(order, c.Keys) && c != map[] && 0.0 <= d < 1.0 && sweeps > 0
    ensures Normalized(order, Sweeps(c, order, d, Uniform(c), sweeps)).Ranked?
    ensures Sum(order, Normalized(order, Sweeps(c, order, d, Uniform(c), sweeps)).ranks) == 1.0
    ensures forall p :: p in c ==> Normalized(order, Sweeps(c, order, d, Uniform(c), sweeps)).ranks[p] > 0.0
  {
    var u := Uniform(c);
    forall p | p in c ensures u[p] >= 0.0 {
      QuotientNonNegative(1.0, |c|);
    }
    SweepsKeys(c, order, d, u, sweeps);
    SweepsAtLeastTeleport(c, order, d, u, sweeps);
    TeleportShare(d, |c|);
    PositiveRanksNormalize(order, Sweeps(c, order, d, u, sweeps), (1.0 - d) / |c| as real);
  }

  /** Ranks that are all at least some `t > 0` normalise to positive ranks
      that sum to 1. */
  lemma PositiveRanksNormalize(order: seq<Page>, m: RankMap, t: real)
    requires IsOrder(order, m.Keys) && m != map[] && t > 0.0
    requires forall p :: p in m ==> m[p] >= t
    ensures Normalized(order, m).Ranked?
    ensures Normalized(order, m).ranks.Keys == m.Keys
    ensures Sum(order, Normalized(order, m).ranks) == 1.0
    ensures forall p :: p in m ==> Normalized(order, m).ranks[p] > 0.0
  {
    var p0 :| p0 in m;
    assert p0 in order;
    PositiveTotal(order, m, t);
    NormalizedRanksOf(order, m);
    NormalizedSumsToOne(order, m);
    forall p | p in m ensures Normalized(order, m).ranks[p] > 0.0 {
      PositiveQuotient(m[p], Sum(order, m));
    }
  }

  /** Ranks that are all at least `t > 0` on a nonempty order have a positive total. */
  lemma PositiveTotal(order: seq<Page>, m: RankMap, t: real)
    requires order != [] && t > 0.0
    requires forall i :: 0 <= i < |order| ==> order[i] in m && m[order[i]] >= t
    ensures Sum(order, m) > 0.0
  {
    SumAtLeast(order, m, t);
    PositiveProduct(t, |order|);
  }

  lemma PositiveProduct(t: real, n: nat)
    requires t > 0.0 && n > 0
    ensures t * n as real > 0.0
  {
  }

  lemma PositiveQuotient(x: real, t: real)
    requires x > 0.0 && t > 0.0
    ensures x / t > 0.0
  {
  }

  /** A positive total makes the division succeed. */
  lemma NormalizedRanksOf(order: seq<Page>, m: RankMap)
    requires IsOrder(order, m.Keys) && Sum(order, m) > 0.0
    ensures Normalized(order, m).Ranked?
    ensures forall p :: p in m ==> Normalized(order, m).ranks[p] == m[p] / Sum(order, m)
  {
  }
}
