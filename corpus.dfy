/** The link graph ("corpus") that both ranking engines read, and the
    link filtering that `crawl` applies to the raw links of every page. */
module Corpus {

  /** A page is identified by its file name. */
  type Page = string

  /** Outgoing links of every page of the corpus. */
  type Links = map<Page, set<Page>>

  /** A rank or probability for every page. */
  type RankMap = map<Page, real>

  /** No page links to itself. */
  ghost predicate NoSelfLinks(c: Links)
  {
    forall p :: p in c ==> p !in c[p]
  }

  /** Every link target is itself a page of the corpus. */
  ghost predicate Closed(c: Links)
  {
    forall p, q :: p in c && q in c[p] ==> q in c
  }

  /** The shape `crawl` hands to the ranking engines. */
  ghost predicate Valid(c: Links)
  {
    NoSelfLinks(c) && Closed(c)
  }

  /** No page occurs twice in `s`. */
  ghost predicate Distinct(s: seq<Page>)
  {
    forall i, j :: 0 <= i < j < |s| ==> s[i] != s[j]
  }

  /** Every entry of `order` is a key of `keys`. */
  ghost predicate Within(order: seq<Page>, keys: set<Page>)
  {
    forall i :: 0 <= i < |order| ==> order[i] in keys
  }

  /** `order` lists every key of `keys` exactly once: the iteration order of a
      dictionary whose key set is `keys`. */
  ghost predicate IsOrder(order: seq<Page>, keys: set<Page>)
  {
    Distinct(order) && forall p :: p in order <==> p in keys
  }

  /** Without its last entry, an order lists the other keys. */
  lemma DropLast(order: seq<Page>, keys: set<Page>)
    requires IsOrder(order, keys) && order != []
    ensures IsOrder(order[..|order| - 1], keys - {order[|order| - 1]})
  {
    var n := |order| - 1;
    forall p ensures p in order[..n] <==> p in keys - {order[n]} {
      if p in order[..n] {
        var i :| 0 <= i < n && order[..n][i] == p;
        assert order[i] == p;
      }
    }
  }

  /** A dictionary has as many keys as its iteration order has entries. */
  lemma {:induction false} OrderSize(order: seq<Page>, keys: set<Page>)
    requires IsOrder(order, keys)
    ensures |keys| == |order|
    decreases |order|
  {
    if order != [] {
      var n := |order| - 1;
      DropLast(order, keys);
      OrderSize(order[..n], keys - {order[n]});
    }
  }

  /** A page of the corpus is one of its order's entries. */
  lemma IndexOf(order: seq<Page>, keys: set<Page>, p: Page) returns (i: nat)
    requires IsOrder(order, keys) && p in keys
    ensures i < |order| && order[i] == p
  {
    i :| 0 <= i < |order| && order[i] == p;
  }

  /** The corpus `crawl` returns for the raw link sets `raw` (the set of
      `href` targets found in each page): self-links dropped, and links to
      pages outside the corpus dropped. */
  function Cleaned(raw: Links): (c: Links)
  {
    map f | f in raw :: set l | l in raw[f] && l != f && l in raw
  }

  /** Cleaning keeps the key set, yields a valid corpus, and removes only the
      links that make a corpus invalid. */
  lemma CleanedIsValid(raw: Links)
    ensures Cleaned(raw).Keys == raw.Keys
    ensures Valid(Cleaned(raw))
    ensures forall f, l :: f in raw ==>
      (l in Cleaned(raw)[f] <==> l in raw[f] && l != f && l in raw)
  {
  }

  /** A corpus that is already valid is left as it is, so cleaning twice
      is the same as cleaning once. */
  lemma {:induction false} CleanedFixesValid(c: Links)
    requires Valid(c)
    ensures Cleaned(c) == c
  {
    forall f | f in c ensures Cleaned(c)[f] == c[f] {
      assert forall l :: l in c[f] ==> l != f && l in c;
    }
  }

  lemma CleanedIdempotent(raw: Links)
    ensures Cleaned(Cleaned(raw)) == Cleaned(raw)
  {
    CleanedIsValid(raw);
    CleanedFixesValid(Cleaned(raw));
  }

  /** The link filtering of `crawl`: the first loop stores each page's link
      set without the page itself, the second keeps only the links that are
      keys of the corpus. */
  method Crawl(raw: Links) returns (pages: Links)
    ensures pages == Cleaned(raw)
    ensures pages.Keys == raw.Keys && Valid(pages)
  {
    pages := map[];
    var todo := raw.Keys;
    while todo != {}
      invariant todo <= raw.Keys
      invariant pages.Keys == raw.Keys - todo
      invariant forall f :: f in pages ==> pages[f] == raw[f] - {f}
      decreases todo
    {
      var f :| f in todo;
      pages := pages[f := raw[f] - {f}];
      todo := todo - {f};
    }
    todo := pages.Keys;
    while todo != {}
      invariant todo <= raw.Keys
      invariant pages.Keys == raw.Keys
      invariant forall f :: f in todo ==> pages[f] == raw[f] - {f}
      invariant forall f :: f in raw && f !in todo ==> pages[f] == Cleaned(raw)[f]
      decreases todo
    {
      var f :| f in todo;
      pages := pages[f := set l | l in pages[f] && l in pages];
      todo := todo - {f};
    }
    CleanedIsValid(raw);
  }
}
