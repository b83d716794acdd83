/**
 The link graph the PageRank engine works on: a dictionary from page name to
 the set of pages it links to. The dictionary is a mutable object shared with
 its caller, and its keys are visited in insertion order, so it is modelled as
 a class holding the mapping and the order of its keys.
 */
module Graph {

  type Page = string

  /** Page -> the pages it links to. */
  type Links = map<Page, set<Page>>

  /** No page occurs twice in `s`. */
  ghost predicate Distinct(s: seq<Page>)
  {
    forall a, b :: 0 <= a < b < |s| ==> s[a] != s[b]
  }

  /** `order` lists every key of `keys` exactly once. */
  ghost predicate Enumerates(order: seq<Page>, keys: set<Page>)
  {
    Distinct(order) && (set p | p in order) == keys
  }

  /** Every link names a page of the corpus. */
  ghost predicate Closed(pages: Links)
  {
    forall p :: p in pages ==> pages[p] <= pages.Keys
  }

  /** The graph as crawl leaves it: links stay inside the corpus and no page links to itself. */
  ghost predicate Crawled(pages: Links)
  {
    Closed(pages) && forall p :: p in pages ==> p !in pages[p]
  }

  /**
   The second loop of crawl: each page keeps only its links to pages of the
   corpus. Links that leave the corpus are dropped and no link is added.
   */
  function KeepCorpusLinks(pages: Links): (kept: Links)
    ensures kept.Keys == pages.Keys
    ensures Closed(kept)
    ensures forall p, q :: p in kept && q in kept[p] <==> p in pages && q in pages[p] && q in pages
  {
    map p | p in pages :: set q | q in pages[p] && q in pages
  }

  /** Self links removed when a page is read, then the filter: the graph has the shape the engine expects. */
  lemma FilteredIsCrawled(pages: Links)
    requires forall p :: p in pages ==> p !in pages[p]
    ensures Crawled(KeepCorpusLinks(pages))
  {
  }

  /** The corpus dictionary: its mapping and the insertion order of its keys. */
  class Corpus {
    var pages: Links
    var order: seq<Page>

    ghost predicate Valid()
      reads this
    {
      Enumerates(order, pages.Keys)
    }
  }

  /** The sum of the values of `m` over `keys`, a key missing from `m` adding nothing. */
  function Sum(keys: seq<Page>, m: map<Page, real>): (total: real)
  {
    if keys == [] then 0.0
    else (if keys[0] in m then m[keys[0]] else 0.0) + Sum(keys[1..], m)
  }

  /** How many positions of `keys` hold a member of `s`. */
  function CountIn(keys: seq<Page>, s: set<Page>): (c: nat)
    ensures c <= |keys|
  {
    if keys == [] then 0
    else (if keys[0] in s then 1 else 0) + CountIn(keys[1..], s)
  }

  /** Over a list without repetitions, counting the members of `s` gives the size of its overlap with `s`. */
  lemma {:induction false} CountInDistinct(keys: seq<Page>, s: set<Page>)
    requires Distinct(keys)
    ensures CountIn(keys, s) == |s * (set p | p in keys)|
  {
    if keys != [] {
      var rest := keys[1..];
      assert Distinct(rest);
      CountInDistinct(rest, s);
      var tail := s * (set p | p in rest);
      assert keys[0] !in tail;
      if keys[0] in s {
        assert s * (set p | p in keys) == tail + {keys[0]};
        assert |tail + {keys[0]}| == |tail| + 1;
      } else {
        assert s * (set p | p in keys) == tail;
      }
    }
  }

  /** Over a list without repetitions, counting a set of its elements gives the size of that set. */
  lemma CountInSubset(keys: seq<Page>, s: set<Page>)
    requires Distinct(keys) && s <= (set p | p in keys)
    ensures CountIn(keys, s) == |s|
  {
    CountInDistinct(keys, s);
    assert s * (set p | p in keys) == s;
  }

  /** A list without repetitions has as many elements as the set of its elements. */
  lemma DistinctSize(keys: seq<Page>)
    requires Distinct(keys)
    ensures |set p | p in keys| == |keys|
  {
    var all := set p | p in keys;
    CountInDistinct(keys, all);
    CountInAll(keys, all);
    assert all * all == all;
  }

  /** When every element of `keys` is in `s`, every position counts. */
  lemma {:induction false} CountInAll(keys: seq<Page>, s: set<Page>)
    requires forall k :: k in keys ==> k in s
    ensures CountIn(keys, s) == |keys|
  {
    if keys != [] {
      CountInAll(keys[1..], s);
    }
  }

  /** The arithmetic step of SumTwoLevels, kept apart so the solver sees only reals. */
  lemma Regroup(head: real, c: real, len: real, d: real, lo: real)
    ensures (head * d + lo) + (c * d + len * lo) == (head + c) * d + (1.0 + len) * lo
  {
  }

  /** A sum over values that are `hi` on the members of `s` and `lo` elsewhere. */
  lemma {:induction false} SumTwoLevels(keys: seq<Page>, m: map<Page, real>, s: set<Page>, hi: real, lo: real)
    requires forall k :: k in keys ==> k in m && m[k] == if k in s then hi else lo
    ensures Sum(keys, m) == CountIn(keys, s) as real * (hi - lo) + |keys| as real * lo
  {
    if keys != [] {
      SumTwoLevels(keys[1..], m, s, hi, lo);
      var c := CountIn(keys[1..], s) as real;
      var len := |keys[1..]| as real;
      var head := if keys[0] in s then 1.0 else 0.0;
      assert CountIn(keys, s) as real == head + c;
      assert |keys| as real == 1.0 + len;
      assert m[keys[0]] == head * (hi - lo) + lo;
      Regroup(head, c, len, hi - lo, lo);
    }
  }

  /** A weight spread evenly over all pages adds up to one. */
  lemma UniformSumsToOne(order: seq<Page>, dist: map<Page, real>)
    requires order != []
    requires forall p :: p in order ==> p in dist && dist[p] == 1.0 / |order| as real
    ensures Sum(order, dist) == 1.0
  {
    var lo := 1.0 / |order| as real;
    SumTwoLevels(order, dist, {}, lo, lo);
    assert CountIn(order, {}) as real * (lo - lo) == 0.0;
  }
}
