/** `transition_model`: the probability of moving from one page to every page
    of the corpus in one step of the random surfer. */
module Transition {
  import opened Corpus
  import opened Sums

  /** The distribution `transition_model` returns: with links, every page gets
      the teleport share `(1 - d) / N` and every linked page `d / |L|` more;
      a page without links spreads `1 / N` over every page. */
  function Distribution(c: Links, page: Page, d: real): (m: RankMap)
    requires page in c
  {
    var n := |c| as real;
    var links := c[page];
    map p | p in c ::
      if |links| > 0 then (1.0 - d) / n + (if p in links then d / |links| as real else 0.0)
      else 1.0 / n
  }

  /** The distribution has an entry for every page and no other. */
  lemma DistributionKeys(c: Links, page: Page, d: real)
    requires page in c
    ensures Distribution(c, page, d).Keys == c.Keys
  {
  }

  /** From a page without links every page is equally likely. */
  lemma DistributionDangling(c: Links, page: Page, d: real, p: Page)
    requires page in c && c[page] == {} && p in c
    ensures Distribution(c, page, d)[p] == 1.0 / |c| as real
  {
  }

  /** From a page with links, a page it does not link to gets only the
      teleport share and a page it links to gets the link share on top. */
  lemma DistributionLinked(c: Links, page: Page, d: real, p: Page)
    requires page in c && c[page] != {} && p in c
    ensures p !in c[page] ==> Distribution(c, page, d)[p] == (1.0 - d) / |c| as real
    ensures p in c[page] ==> Distribution(c, page, d)[p] == (1.0 - d) / |c| as real + d / |c[page]| as real
  {
  }

  /** The distribution sums to 1, for every damping factor, as long as every
      link of `page` is a page of the corpus. */
  lemma DistributionSumsToOne(c: Links, order: seq<Page>, page: Page, d: real)
    requires IsOrder(order, c.Keys)
    requires page in c && c[page] <= c.Keys
    ensures Sum(order, Distribution(c, page, d)) == 1.0
  {
    OrderSize(order, c.Keys);
    assert page in order;
    var m := Distribution(c, page, d);
    if |c[page]| > 0 {
      LinkedSumsToOne(order, c.Keys, m, c[page], d);
    } else {
      UniformSumsToOne(order, c.Keys, m);
    }
  }

  /** Teleport shares on every page plus link shares on the pages of `L` sum to 1. */
  lemma LinkedSumsToOne(order: seq<Page>, keys: set<Page>, m: RankMap, L: set<Page>, d: real)
    requires IsOrder(order, keys)
    requires L <= keys && |L| > 0
    requires forall p :: p in keys ==>
      p in m && m[p] == (1.0 - d) / |keys| as real + (if p in L then d / |L| as real else 0.0)
    ensures Sum(order, m) == 1.0
  {
    var t := (1.0 - d) / |keys| as real;
    var k := d / |L| as real;
    SumTwoLevels(order, keys, m, L, t, k);
    OrderSize(order, keys);
    assert |keys| > 0 by { var p :| p in L; assert p in keys; }
    TeleportPlusLinks(Sum(order, m), d, t, k, |keys|, |order|, |L|);
  }

  /** `N` shares of `1 / N` sum to 1. */
  lemma UniformSumsToOne(order: seq<Page>, keys: set<Page>, m: RankMap)
    requires IsOrder(order, keys) && |order| > 0
    requires forall p :: p in keys ==> p in m && m[p] == 1.0 / |keys| as real
    ensures Sum(order, m) == 1.0
  {
    OrderSize(order, keys);
    SumConst(order, m, 1.0 / |keys| as real);
    UniformShares(Sum(order, m), |keys|);
  }

  /** A map worth `t` everywhere and `k` more on the pages of `L` sums to `t`
      per page plus `k` per page of `L`. */
  lemma SumTwoLevels(order: seq<Page>, keys: set<Page>, m: RankMap, L: set<Page>, t: real, k: real)
    requires IsOrder(order, keys)
    requires forall p :: p in keys ==> p in m && m[p] == t + (if p in L then k else 0.0)
    requires L <= keys
    ensures Sum(order, m) == t * |order| as real + k * |L| as real
  {
    var base := map p | p in keys :: t;
    var extra := map p | p in keys :: if p in L then k else 0.0;
    SumConst(order, base, t);
    SumIndicator(order, keys, extra, L, k);
    SumAdd(order, base, extra, m);
  }

  /** The arithmetic behind the sum: `N` teleport shares and `l` link shares
      make 1 (`size`, the length of the order summed over, is `N`). */
  lemma TeleportPlusLinks(s: real, d: real, t: real, k: real, n: nat, size: nat, l: nat)
    requires n > 0 && l > 0 && t == (1.0 - d) / n as real && k == d / l as real
    requires size == n && s == t * size as real + k * l as real
    ensures s == 1.0
  {
  }

  /** `N` uniform shares make 1. */
  lemma UniformShares(s: real, n: nat)
    requires n > 0 && s == 1.0 / n as real * n as real
    ensures s == 1.0
  {
  }

  /** One of the filling loops of `transition_model`: every page of `order`
      gets the value `v`. */
  method Fill(order: seq<Page>, v: real) returns (m: RankMap)
    ensures forall p :: p in m <==> p in order
    ensures forall p :: p in m ==> m[p] == v
  {
    m := map[];
    for i := 0 to |order|
      invariant forall p :: p in m <==> p in order[..i]
      invariant forall p :: p in m ==> m[p] == v
    {
      m := m[order[i] := v];
    }
    assert order[..|order|] == order;
  }

  /** The `+=` loop of `transition_model`: every page of `targets` gets
      `share` added to its value; the others keep theirs. */
  method AddToEach(m0: RankMap, targets: set<Page>, share: real) returns (m: RankMap)
    requires targets <= m0.Keys
    ensures m.Keys == m0.Keys
    ensures forall p :: p in m ==> m[p] == m0[p] + (if p in targets then share else 0.0)
  {
    m := m0;
    var todo := targets;
    while todo != {}
      invariant todo <= targets
      invariant m.Keys == m0.Keys
      invariant forall p :: p in m ==> m[p] == m0[p] + (if p in targets - todo then share else 0.0)
      decreases todo
    {
      var t :| t in todo;
      m := m[t := m[t] + share];
      todo := todo - {t};
    }
  }

  /** `transition_model`: with links, the teleport share for every page and
      then the link share added to every linked page; without links, the
      uniform share for every page. */
  method TransitionModel(c: Links, order: seq<Page>, page: Page, d: real) returns (dist: RankMap)
    requires IsOrder(order, c.Keys)
    requires page in c && c[page] <= c.Keys
    ensures dist == Distribution(c, page, d)
    ensures Sum(order, dist) == 1.0
  {
    var n := |c| as real;
    var links := c[page];
    if |links| > 0 {
      var base := Fill(order, (1.0 - d) / n);
      assert base.Keys == c.Keys;
      dist := AddToEach(base, links, d / |links| as real);
      IsDistribution(c, page, d, dist);
    } else {
      dist := Fill(order, 1.0 / n);
      assert dist.Keys == c.Keys;
      IsDistribution(c, page, d, dist);
    }
    DistributionSumsToOne(c, order, page, d);
  }

  /** A map with the keys of the corpus and the values of `Distribution` is
      that distribution. */
  lemma IsDistribution(c: Links, page: Page, d: real, dist: RankMap)
    requires page in c && dist.Keys == c.Keys
    requires forall p :: p in dist ==>
      dist[p] == (if |c[page]| > 0 then (1.0 - d) / |c| as real + (if p in c[page] then d / |c[page]| as real else 0.0)
                  else 1.0 / |c| as real)
    ensures dist == Distribution(c, page, d)
  {
  }
}
