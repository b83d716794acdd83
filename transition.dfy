/**
 transition_model: the distribution over the next page a random surfer visits
 from a given page. With probability `damping` the surfer follows one of the
 page's links, chosen uniformly; otherwise it jumps to a page of the corpus
 chosen uniformly. A page without links spreads all its weight uniformly.
 */
module Transition {
  import opened Graph

  /** The next-page distribution from `page`, one entry per page of the corpus. */
  function TransitionModel(pages: Links, page: Page, damping: real): (dist: map<Page, real>)
    requires page in pages
    ensures dist.Keys == pages.Keys
    ensures pages[page] != {} ==>
      forall p :: p in dist ==>
        dist[p] == if p in pages[page]
                   then damping / |pages[page]| as real + (1.0 - damping) / |pages| as real
                   else (1.0 - damping) / |pages| as real
    ensures pages[page] == {} ==>
      forall p :: p in dist ==> dist[p] == 1.0 / |pages| as real
  {
    assert page in pages.Keys;
    var n := |pages| as real;
    var outbound := pages[page];
    var randomPro := if outbound != {} then (1.0 - damping) / n else 1.0 / n;
    var linkPro := if outbound != {} then damping / |outbound| as real else 0.0;
    map key | key in pages :: if key in outbound then linkPro + randomPro else randomPro
  }

  /** The table of every page's transition distribution; each row covers the whole corpus. */
  function TransitionTable(pages: Links, damping: real): (table: map<Page, map<Page, real>>)
    ensures table.Keys == pages.Keys
    ensures forall p :: p in table ==> table[p].Keys == pages.Keys
  {
    map p | p in pages :: TransitionModel(pages, p, damping)
  }

  /** When the page's links stay inside the corpus, its distribution sums to 1 over the corpus. */
  lemma TransitionSumsToOne(pages: Links, order: seq<Page>, page: Page, damping: real)
    requires page in pages && Enumerates(order, pages.Keys)
    requires pages[page] <= pages.Keys
    ensures Sum(order, TransitionModel(pages, page, damping)) == 1.0
  {
    DistinctSize(order);
    assert page in pages.Keys;
    if pages[page] != {} {
      LinkedSumsToOne(order, TransitionModel(pages, page, damping), pages[page], damping,
                      |pages[page]| as real, |pages| as real);
    } else {
      UniformSumsToOne(order, TransitionModel(pages, page, damping));
    }
  }

  /**
   On a crawled corpus, every row of the transition table is a distribution
   over the corpus. It is stated on the crawl's output on purpose: the proof
   needs only that the graph is closed, which Crawled includes.
   */
  lemma CrawledTableSumsToOne(pages: Links, order: seq<Page>, damping: real)
    requires Crawled(pages) && Enumerates(order, pages.Keys)
    ensures forall p :: p in pages ==> Sum(order, TransitionTable(pages, damping)[p]) == 1.0
  {
    forall p | p in pages
      ensures Sum(order, TransitionTable(pages, damping)[p]) == 1.0
    {
      TransitionSumsToOne(pages, order, p, damping);
    }
  }

  /** Weights of `damping` spread over the k links and the rest spread over all n pages add up to one. */
  lemma LinkedSumsToOne(order: seq<Page>, dist: map<Page, real>, outbound: set<Page>, damping: real, k: real, n: real)
    requires Distinct(order) && outbound <= (set p | p in order)
    requires k == |outbound| as real > 0.0 && n == |order| as real
    requires forall p :: p in order ==>
      p in dist && dist[p] == if p in outbound then damping / k + (1.0 - damping) / n else (1.0 - damping) / n
    ensures Sum(order, dist) == 1.0
  {
    var lo := (1.0 - damping) / n;
    var hi := damping / k + lo;
    SumTwoLevels(order, dist, outbound, hi, lo);
    CountInSubset(order, outbound);
    LinkedShare(Sum(order, dist), CountIn(order, outbound) as real, |order| as real, k, n, damping, hi, lo);
  }

  /** k links sharing `damping` and n pages sharing the rest add up to one. */
  lemma LinkedShare(total: real, c: real, len: real, k: real, n: real, damping: real, hi: real, lo: real)
    requires k > 0.0 && n > 0.0 && c == k && len == n
    requires lo == (1.0 - damping) / n && hi == damping / k + lo
    requires total == c * (hi - lo) + len * lo
    ensures total == 1.0
  {
    assert c * (hi - lo) == damping;
    assert len * lo == 1.0 - damping;
  }

  /** For a damping factor between 0 and 1, every entry is a probability. */
  lemma TransitionBounds(pages: Links, page: Page, damping: real)
    requires page in pages && 0.0 <= damping <= 1.0
    ensures forall p :: p in TransitionModel(pages, page, damping) ==>
      0.0 <= TransitionModel(pages, page, damping)[p] <= 1.0
  {
    assert page in pages.Keys;
    var n := |pages| as real;
    var k := |pages[page]| as real;
    assert 1.0 / n <= 1.0;
    assert 0.0 <= (1.0 - damping) / n <= 1.0 - damping;
    if pages[page] != {} {
      assert 0.0 <= damping / k <= damping;
    }
  }
}
