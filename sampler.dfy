/** `sample_pagerank` and `get_sample`: the random surfer walks `SAMPLES`
    steps through the corpus, counting how often each page is drawn. The
    random choices are an oracle: a start page and the sequence of drawn
    pages, one per step. */
module Sampler {
  import opened Corpus
  import opened Sums
  import opened Transition

  /** The number of steps of the walk, whatever `n` the caller passes. */
  const SAMPLES: nat := 10000

  /** Visit counters, one per page. */
  type Counts = map<Page, nat>

  /** Every page in `draws` is a page of `c`: the oracle only ever returns a
      key of the distribution it draws from. */
  ghost predicate DrawsFrom(c: Links, draws: seq<Page>)
  {
    forall i :: 0 <= i < |draws| ==> draws[i] in c
  }

  /** The counters of the keys `keys` after the walk drew `draws`, starting
      from zero: each page counts its occurrences in `draws`. */
  function Tally(keys: set<Page>, draws: seq<Page>): Counts
  {
    map p | p in keys :: CountIn(draws, {p})
  }

  /** The counters as reals, the form the division of `sample_pagerank` works on. */
  function AsReals(counts: Counts): RankMap
  {
    map p | p in counts :: counts[p] as real
  }

  /** No page is drawn more often than there are draws. */
  lemma {:induction false} MultiplicityBound(draws: seq<Page>, p: Page)
    ensures CountIn(draws, {p}) <= |draws|
    decreases |draws|
  {
    if draws != [] {
      MultiplicityBound(draws[..|draws| - 1], p);
    }
  }

  /** When every draw is a key, the counters of all keys add up to the number
      of draws: each step increments exactly one existing counter. */
  lemma {:induction false} TallySum(order: seq<Page>, keys: set<Page>, draws: seq<Page>)
    requires IsOrder(order, keys)
    requires forall i :: 0 <= i < |draws| ==> draws[i] in keys
    ensures Sum(order, AsReals(Tally(keys, draws))) == |draws| as real
    decreases |draws|
  {
    var m := AsReals(Tally(keys, draws));
    if draws == [] {
      SumConst(order, m, 0.0);
    } else {
      var n := |draws| - 1;
      var x := draws[n];
      TallySum(order, keys, draws[..n]);
      var before := AsReals(Tally(keys, draws[..n]));
      forall p | p in keys
        ensures m[p] == before[p] + (if p in {x} then 1.0 else 0.0)
      {
        assert CountIn(draws, {p}) == CountIn(draws[..n], {p}) + (if x in {p} then 1 else 0);
      }
      OneMoreVisit(order, keys, before, m, x);
    }
  }

  /** Incrementing the counter of one key adds 1 to the sum of the counters. */
  lemma OneMoreVisit(order: seq<Page>, keys: set<Page>, before: RankMap, after: RankMap, x: Page)
    requires IsOrder(order, keys) && x in keys
    requires forall p :: p in keys ==>
      p in before && p in after && after[p] == before[p] + (if p in {x} then 1.0 else 0.0)
    ensures Sum(order, after) == Sum(order, before) + 1.0
  {
    var step := map p | p in keys :: if p in {x} then 1.0 else 0.0;
    SingleVisit(order, keys, step, x);
    SumAdd(order, before, step, after);
  }

  /** A map worth 1 on one key and 0 on the others sums to 1. */
  lemma SingleVisit(order: seq<Page>, keys: set<Page>, step: RankMap, x: Page)
    requires IsOrder(order, keys) && x in keys
    requires forall i :: 0 <= i < |order| ==>
      order[i] in step && step[order[i]] == (if order[i] in {x} then 1.0 else 0.0)
    ensures Sum(order, step) == 1.0
  {
    SumIndicator(order, keys, step, {x}, 1.0);
    assert |{x}| == 1;
  }

  /** One more draw adds one to the count of the drawn page only. */
  lemma CountStep(draws: seq<Page>, lo: nat, hi: nat, p: Page)
    requires lo <= hi < |draws|
    ensures CountIn(draws[lo..hi + 1], {p}) == CountIn(draws[lo..hi], {p}) + (if draws[hi] in {p} then 1 else 0)
  {
    assert draws[lo..hi + 1][..hi - lo] == draws[lo..hi];
  }

  /** The counters `counts` are the start counters `counts0` plus the visits
      of the draws from step `lo` up to step `hi`. */
  ghost predicate Counted(counts0: Counts, counts: Counts, draws: seq<Page>, lo: nat, hi: nat)
    requires lo <= hi <= |draws|
  {
    counts.Keys == counts0.Keys &&
    forall p :: p in counts ==> counts[p] == counts0[p] + CountIn(draws[lo..hi], {p})
  }

  /** Counting the draw at step `hi` keeps the counters equal to the start
      counters plus the draws from `lo` on. */
  lemma VisitStep(draws: seq<Page>, lo: nat, hi: nat, counts0: Counts, before: Counts, after: Counts)
    requires lo <= hi < |draws| && draws[hi] in before
    requires Counted(counts0, before, draws, lo, hi)
    requires after == before[draws[hi] := before[draws[hi]] + 1]
    ensures Counted(counts0, after, draws, lo, hi + 1)
  {
    forall p | p in after ensures after[p] == counts0[p] + CountIn(draws[lo..hi + 1], {p}) {
      CountStep(draws, lo, hi, p);
    }
  }

  /** `get_sample`: from step `count0` on, draws the next page from the
      transition model of the current one and increments its counter, until
      `SAMPLES` steps have been taken. The start page itself is not counted. */
  method GetSample(c: Links, order: seq<Page>, d: real, count0: nat, counts0: Counts,
                   sample0: Page, draws: seq<Page>) returns (counts: Counts)
    requires IsOrder(order, c.Keys) && Closed(c)
    requires count0 <= SAMPLES == |draws| && DrawsFrom(c, draws)
    requires sample0 in c && counts0.Keys == c.Keys
    ensures counts.Keys == counts0.Keys
    ensures forall p :: p in counts ==> counts[p] == counts0[p] + CountIn(draws[count0..], {p})
  {
    var count := count0;
    var sample := sample0;
    counts := counts0;
    assert Counted(counts0, counts, draws, count0, count);
    while count != SAMPLES
      invariant count0 <= count <= SAMPLES
      invariant sample in c
      invariant Counted(counts0, counts, draws, count0, count)
    {
      var next := Draw(c, order, d, sample, draws, count);
      var after := counts[next := counts[next] + 1];
      VisitStep(draws, count0, count, counts0, counts, after);
      counts := after;
      count := count + 1;
      sample := next;
    }
    assert draws[count0..count] == draws[count0..];
  }

  /** One step of the walk: the transition model of the current page, and the
      page the oracle draws from it at step `count`, a key of that model. */
  method Draw(c: Links, order: seq<Page>, d: real, sample: Page, draws: seq<Page>, count: nat)
    returns (next: Page)
    requires IsOrder(order, c.Keys) && Closed(c)
    requires sample in c && count < |draws| && DrawsFrom(c, draws)
    ensures next == draws[count] && next in c
  {
    var probability := TransitionModel(c, order, sample, d);
    next := draws[count];
    DistributionKeys(c, sample, d);
    assert next in probability;
  }

  /** The first loop of `sample_pagerank`: a zero counter for every page. */
  method ZeroCounts(order: seq<Page>) returns (counts: Counts)
    ensures forall p :: p in counts <==> p in order
    ensures forall p :: p in counts ==> counts[p] == 0
  {
    counts := map[];
    for i := 0 to |order|
      invariant forall p :: p in counts <==> p in order[..i]
      invariant forall p :: p in counts ==> counts[p] == 0
    {
      counts := counts[order[i] := 0];
    }
    assert order[..|order|] == order;
  }

  /** The last loop of `sample_pagerank`: every counter divided by `SAMPLES`. */
  method Shares(counts: Counts) returns (ranks: RankMap)
    ensures ranks.Keys == counts.Keys
    ensures forall p :: p in ranks ==> ranks[p] == counts[p] as real / SAMPLES as real
  {
    ranks := map[];
    var todo := counts.Keys;
    while todo != {}
      invariant todo <= counts.Keys
      invariant ranks.Keys == counts.Keys - todo
      invariant forall p :: p in ranks ==> ranks[p] == counts[p] as real / SAMPLES as real
      decreases todo
    {
      var key :| key in todo;
      ranks := ranks[key := counts[key] as real / SAMPLES as real];
      todo := todo - {key};
    }
  }

  /** `sample_pagerank`: every counter starts at 0, the walk starts at `start`,
      and each counter is divided by `SAMPLES`. The parameter `n` is not used. */
  method SamplePagerank(c: Links, order: seq<Page>, d: real, n: int, start: Page,
                        draws: seq<Page>) returns (ranks: RankMap)
    requires IsOrder(order, c.Keys) && Closed(c)
    requires |draws| == SAMPLES && DrawsFrom(c, draws)
    requires start in c
    ensures ranks.Keys == c.Keys
    ensures forall p :: p in ranks ==> ranks[p] == CountIn(draws, {p}) as real / SAMPLES as real
    ensures forall p :: p in ranks ==> 0.0 <= ranks[p] <= 1.0
    ensures Sum(order, ranks) == 1.0
  {
    var zero := ZeroCounts(order);
    var counts := GetSample(c, order, d, 0, zero, start, draws);
    assert draws[0..] == draws;
    CountersAreTally(order, c.Keys, draws, counts);
    ranks := Shares(counts);
    SampleShares(order, c.Keys, draws, ranks);
  }

  /** The counters of a whole walk are the tally of its draws: they sum to
      the number of draws and none exceeds it. */
  lemma CountersAreTally(order: seq<Page>, keys: set<Page>, draws: seq<Page>, counts: Counts)
    requires IsOrder(order, keys)
    requires forall i :: 0 <= i < |draws| ==> draws[i] in keys
    requires counts.Keys == keys
    requires forall p :: p in counts ==> counts[p] == CountIn(draws, {p})
    ensures counts == Tally(keys, draws)
    ensures Sum(order, AsReals(counts)) == |draws| as real
    ensures forall p :: p in counts ==> counts[p] <= |draws|
  {
    TallySum(order, keys, draws);
    assert counts == Tally(keys, draws);
    forall p | p in counts ensures counts[p] <= |draws| {
      MultiplicityBound(draws, p);
    }
  }

  /** The shares `count / SAMPLES` of a walk of `SAMPLES` draws lie between 0
      and 1 and sum to 1. */
  lemma SampleShares(order: seq<Page>, keys: set<Page>, draws: seq<Page>, ranks: RankMap)
    requires IsOrder(order, keys) && |draws| == SAMPLES
    requires forall i :: 0 <= i < |draws| ==> draws[i] in keys
    requires ranks.Keys == keys
    requires forall p :: p in ranks ==> ranks[p] == CountIn(draws, {p}) as real / SAMPLES as real
    ensures forall p :: p in ranks ==> 0.0 <= ranks[p] <= 1.0
    ensures Sum(order, ranks) == 1.0
  {
    var visits := AsReals(Tally(keys, draws));
    TallySum(order, keys, draws);
    SumDivide(order, visits, ranks, SAMPLES as real);
    WholeShare(Sum(order, visits), Sum(order, ranks), SAMPLES);
    forall p | p in ranks ensures 0.0 <= ranks[p] <= 1.0 {
      MultiplicityBound(draws, p);
      PartShare(CountIn(draws, {p}), SAMPLES);
    }
  }

  /** `n` counts out of `n` make a share of 1. */
  lemma WholeShare(total: real, share: real, n: nat)
    requires n > 0 && total == n as real && share == total / n as real
    ensures share == 1.0
  {
  }

  /** At most `n` counts out of `n` make a share between 0 and 1. */
  lemma PartShare(k: nat, n: nat)
    requires 0 < n && k <= n
    ensures 0.0 <= k as real / n as real <= 1.0
  {
  }
}
