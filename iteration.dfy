/**
 iterate_pagerank: estimate PageRank by repeated update passes over the
 corpus. It first rewrites the caller's corpus so that every page without
 links links to every page, builds the index of inbound links, starts every
 rank at 1/n, and then runs passes until one pass moves no page by 0.001 or
 more. Within a pass a page's new rank is stored at once, so the pages after
 it read the new value (a Gauss-Seidel sweep).
 */
module Iteration {
  import opened Graph

  /** A pass keeps the loop going when it moves some page's rank by at least this much. */
  const Threshold: real := 0.001

  function Abs(x: real): (r: real)
    ensures r >= 0.0 && (r == x || r == -x)
  {
    if x < 0.0 then -x else x
  }

  // ---------------------------------------------------------------------------
  // Dangling pages

  /** The corpus after every page without links has been given a link to every page. */
  function Filled(pages: Links): (filled: Links)
    ensures filled.Keys == pages.Keys
    ensures forall p :: p in pages && pages[p] != {} ==> filled[p] == pages[p]
    ensures forall p :: p in pages && pages[p] == {} ==> filled[p] == pages.Keys
    ensures forall p :: p in filled ==> filled[p] != {}
  {
    map p | p in pages :: if pages[p] == {} then pages.Keys else pages[p]
  }

  /** The first loop of iterate_pagerank, which overwrites entries of the caller's dictionary. */
  method FillDangling(corpus: Corpus)
    requires corpus.Valid()
    modifies corpus
    ensures corpus.order == old(corpus.order)
    ensures corpus.pages == Filled(old(corpus.pages))
  {
    ghost var before := corpus.pages;
    for idx := 0 to |corpus.order|
      invariant corpus.order == old(corpus.order)
      invariant corpus.pages.Keys == before.Keys
      invariant forall p :: p in before ==>
        corpus.pages[p] == if p in corpus.order[..idx] then Filled(before)[p] else before[p]
    {
      var key := corpus.order[idx];
      assert key in before.Keys;
      assert corpus.order[..idx + 1] == corpus.order[..idx] + [key];
      assert key !in corpus.order[..idx];
      if corpus.pages[key] == {} {
        corpus.pages := corpus.pages[key := corpus.pages.Keys];
      }
    }
    assert corpus.order[..|corpus.order|] == corpus.order;
  }

  /** The rewrite keeps links inside the corpus. */
  lemma FilledStaysClosed(pages: Links)
    requires Closed(pages)
    ensures Closed(Filled(pages))
  {
  }

  /** Rewriting twice changes nothing more, and a corpus without dangling pages is left as it is. */
  lemma FilledIdempotent(pages: Links)
    ensures Filled(Filled(pages)) == Filled(pages)
    ensures (forall p :: p in pages ==> pages[p] != {}) ==> Filled(pages) == pages
  {
  }

  // ---------------------------------------------------------------------------
  // Inbound links

  /** Page -> the pages that link to it; only pages with at least one inbound link are keys. */
  function ReverseIndex(pages: Links): (links: Links)
    ensures forall i, j :: i in links && j in links[i] <==> j in pages && i in pages[j]
    ensures forall i :: i in links ==> links[i] != {}
  {
    var targets := set j, i | j in pages && i in pages[j] :: i;
    map i | i in targets :: set j | j in pages && i in pages[j]
  }

  /**
   After the rewrite, a corpus that had a dangling page gives every page an
   inbound link, so the fallback branch of a pass is never taken.
   */
  lemma EveryPageFedAfterFill(pages: Links, dangling: Page)
    requires dangling in pages && pages[dangling] == {}
    ensures forall i :: i in pages ==> i in ReverseIndex(Filled(pages))
  {
  }

  /** The second loop of iterate_pagerank: for each page and each of its links, record the page under the link's target. */
  method BuildReverseIndex(corpus: Corpus) returns (links: Links)
    requires corpus.Valid()
    ensures links == ReverseIndex(corpus.pages)
  {
    var pages := corpus.pages;
    links := map[];
    ghost var done: set<Page> := {};
    for idx := 0 to |corpus.order|
      invariant done == set k | k in corpus.order[..idx]
      invariant forall i :: i in links ==> links[i] != {}
      invariant forall i, j :: i in links && j in links[i] <==> j in done && j in pages && i in pages[j]
    {
      var key := corpus.order[idx];
      assert corpus.order[..idx + 1] == corpus.order[..idx] + [key];
      assert key in pages.Keys;
      var joins := pages[key];
      ghost var prev := links;
      if joins != {} {
        links := RecordLinks(links, key, joins);
      }
      done := done + {key};
      forall i, j
        ensures i in links && j in links[i] <==> j in done && j in pages && i in pages[j]
      {
        if joins == {} {
          assert links == prev;
        }
      }
    }
    assert corpus.order[..|corpus.order|] == corpus.order;
    SameIndex(pages, links);
  }

  /** The inner loop: `key` is added to the inbound set of each page it links to, a missing or empty set starting afresh. */
  method RecordLinks(before: Links, key: Page, joins: set<Page>) returns (links: Links)
    requires forall i :: i in before ==> before[i] != {}
    ensures forall i :: i in links ==> links[i] != {}
    ensures forall i :: i in links <==> i in before || i in joins
    ensures forall i :: i in links ==>
      links[i] == (if i in before then before[i] else {}) + (if i in joins then {key} else {})
  {
    links := before;
    var rest := joins;
    while rest != {}
      invariant rest <= joins
      invariant forall i :: i in links ==> links[i] != {}
      invariant forall i :: i in links <==> i in before || i in joins - rest
      invariant forall i :: i in links ==>
        links[i] == (if i in before then before[i] else {}) + (if i in joins - rest then {key} else {})
      decreases rest
    {
      var i :| i in rest;
      if i in links && links[i] != {} {
        links := links[i := links[i] + {key}];
      } else {
        links := links[i := {key}];
      }
      rest := rest - {i};
    }
    assert joins - rest == joins;
  }

  /** An index with non-empty entries and the same (target, source) pairs as the reverse index is the reverse index. */
  lemma SameIndex(pages: Links, links: Links)
    requires forall i :: i in links ==> links[i] != {}
    requires forall i, j :: i in links && j in links[i] <==> j in pages && i in pages[j]
    ensures links == ReverseIndex(pages)
  {
    var index := ReverseIndex(pages);
    forall i | i in links
      ensures i in index && links[i] == index[i]
    {
      var j :| j in links[i];
      assert i in index && j in index[i];
      assert forall k :: k in links[i] <==> k in index[i];
    }
    forall i | i in index
      ensures i in links
    {
      var j :| j in index[i];
    }
  }

  // ---------------------------------------------------------------------------
  // Initial ranks

  /** Every page of `order` at rank 1/n. */
  function Uniform(order: seq<Page>): (pr: map<Page, real>)
    ensures pr.Keys == set p | p in order
    ensures forall p :: p in pr ==> pr[p] == 1.0 / |order| as real
  {
    map p | p in order :: 1.0 / |order| as real
  }

  /** The starting ranks form a distribution. */
  lemma UniformIsDistribution(order: seq<Page>)
    requires order != []
    ensures Sum(order, Uniform(order)) == 1.0
    ensures forall p :: p in Uniform(order) ==> 0.0 < Uniform(order)[p] <= 1.0
  {
    UniformSumsToOne(order, Uniform(order));
  }

  /** The third loop of iterate_pagerank. */
  method InitialRanks(corpus: Corpus, n: nat) returns (pr: map<Page, real>)
    requires corpus.Valid() && n == |corpus.pages|
    ensures pr == Uniform(corpus.order)
  {
    DistinctSize(corpus.order);
    pr := map[];
    for idx := 0 to |corpus.order|
      invariant pr.Keys == set p | p in corpus.order[..idx]
      invariant forall p :: p in pr ==> pr[p] == 1.0 / n as real
    {
      assert corpus.order[..idx + 1] == corpus.order[..idx] + [corpus.order[idx]];
      pr := pr[corpus.order[idx] := 1.0 / n as real];
    }
    assert corpus.order[..|corpus.order|] == corpus.order;
  }

  // ---------------------------------------------------------------------------
  // One pass

  /** Every page named in the inbound index has links and a rank. */
  ghost predicate Feeds(pages: Links, links: Links, ranked: set<Page>)
  {
    forall i, j :: i in links && j in links[i] ==> j in ranked && j in pages && pages[j] != {}
  }

  /** The pass over `order` can run: n counts the pages and every page in the index or in the order has a rank. */
  ghost predicate Ready(order: seq<Page>, pages: Links, links: Links, n: nat, ranked: set<Page>)
  {
    |order| == n && Feeds(pages, links, ranked) && forall p :: p in order ==> p in ranked
  }

  /**
   What the pages in `from` pass on: each its rank divided by its number of
   links. Non-negative ranks pass on a non-negative inflow.
   */
  ghost function Inflow(from: set<Page>, pages: Links, pr: map<Page, real>): (s: real)
    requires forall j :: j in from ==> j in pr && j in pages && pages[j] != {}
    ensures (forall j :: j in from ==> pr[j] >= 0.0) ==> s >= 0.0
    decreases from
  {
    if from == {} then 0.0
    else
      var j :| j in from;
      pr[j] / |pages[j]| as real + Inflow(from - {j}, pages, pr)
  }

  /** Inflow does not depend on the order in which the pages are added up. */
  lemma {:induction false} InflowPick(from: set<Page>, pages: Links, pr: map<Page, real>, j: Page)
    requires forall k :: k in from ==> k in pr && k in pages && pages[k] != {}
    requires j in from
    ensures Inflow(from, pages, pr) == pr[j] / |pages[j]| as real + Inflow(from - {j}, pages, pr)
    decreases from
  {
    var k :| k in from && Inflow(from, pages, pr) == pr[k] / |pages[k]| as real + Inflow(from - {k}, pages, pr);
    if k != j {
      InflowPick(from - {k}, pages, pr, j);
      InflowPick(from - {j}, pages, pr, k);
      assert from - {k} - {j} == from - {j} - {k};
    }
  }

  /**
   The update rule for page i, reading the ranks `pr` as they stand. With
   non-negative ranks and a damping factor in [0, 1] the new rank is at least
   the teleport share (1 - d)/n.
   */
  ghost function NewRank(pages: Links, links: Links, damping: real, n: nat, pr: map<Page, real>, i: Page): (r: real)
    requires n > 0 && Feeds(pages, links, pr.Keys)
    ensures 0.0 <= damping <= 1.0 && NonNegative(pr) ==> r >= (1.0 - damping) / n as real >= 0.0
  {
    var base := (1.0 - damping) / n as real;
    ScaledNonNegative(1.0 - damping, 1.0 / n as real);
    if i in links then
      var inflow := Inflow(links[i], pages, pr);
      ScaledNonNegative(damping, inflow);
      base + damping * inflow
    else base
  }

  /** The product of two non-negative reals is non-negative. */
  lemma ScaledNonNegative(x: real, y: real)
    ensures x >= 0.0 && y >= 0.0 ==> x * y >= 0.0
  {
  }

  /** The ranks once the first m pages of `order` have been updated in turn, each reading the ranks left by the ones before. */
  ghost function Partial(order: seq<Page>, pages: Links, links: Links, damping: real, n: nat,
                         pr: map<Page, real>, m: nat): (cur: map<Page, real>)
    requires m <= |order| && Ready(order, pages, links, n, pr.Keys)
    ensures cur.Keys == pr.Keys
    decreases m
  {
    if m == 0 then pr
    else
      var before := Partial(order, pages, links, damping, n, pr, m - 1);
      before[order[m - 1] := NewRank(pages, links, damping, n, before, order[m - 1])]
  }

  /** Updating page order[m] moves its rank by at least the threshold. */
  ghost predicate MovedAt(order: seq<Page>, pages: Links, links: Links, damping: real, n: nat,
                          pr: map<Page, real>, m: nat)
    requires m < |order| && Ready(order, pages, links, n, pr.Keys)
  {
    var before := Partial(order, pages, links, damping, n, pr, m);
    Abs(before[order[m]] - NewRank(pages, links, damping, n, before, order[m])) >= Threshold
  }

  /** Some update among the first m of the pass that starts from `pr` moves a rank by at least the threshold. */
  ghost predicate MovedBefore(order: seq<Page>, pages: Links, links: Links, damping: real, n: nat,
                              pr: map<Page, real>, m: nat)
    requires m <= |order| && Ready(order, pages, links, n, pr.Keys)
  {
    m > 0 && (MovedBefore(order, pages, links, damping, n, pr, m - 1) || MovedAt(order, pages, links, damping, n, pr, m - 1))
  }

  /** Some update of the pass that starts from `pr` moves a rank by at least the threshold. */
  ghost predicate Changed(order: seq<Page>, pages: Links, links: Links, damping: real, n: nat, pr: map<Page, real>)
    requires Ready(order, pages, links, n, pr.Keys)
  {
    MovedBefore(order, pages, links, damping, n, pr, |order|)
  }

  /** Unfolds Partial and MovedAt by one page. */
  lemma PassStep(order: seq<Page>, pages: Links, links: Links, damping: real, n: nat, pr: map<Page, real>, m: nat)
    requires m < |order| && Ready(order, pages, links, n, pr.Keys)
    ensures var before := Partial(order, pages, links, damping, n, pr, m);
      var v := NewRank(pages, links, damping, n, before, order[m]);
      && Partial(order, pages, links, damping, n, pr, m + 1) == before[order[m] := v]
      && (MovedAt(order, pages, links, damping, n, pr, m) <==> Abs(before[order[m]] - v) >= Threshold)
  {
  }

  /** One pass of the `while change` loop: every page in order, each update stored at once. */
  method UpdatePass(order: seq<Page>, pages: Links, links: Links, damping: real, n: nat, start: map<Page, real>)
    returns (pr: map<Page, real>, change: bool)
    requires Ready(order, pages, links, n, start.Keys)
    ensures pr == Partial(order, pages, links, damping, n, start, |order|)
    ensures change <==> Changed(order, pages, links, damping, n, start)
  {
    pr := start;
    change := false;
    for idx := 0 to |order|
      invariant pr == Partial(order, pages, links, damping, n, start, idx)
      invariant change <==> MovedBefore(order, pages, links, damping, n, start, idx)
    {
      var i := order[idx];
      var newValue, moved := UpdatePage(pages, links, damping, n, pr, i);
      PassStep(order, pages, links, damping, n, start, idx);
      if moved {
        change := true;
      }
      pr := pr[i := newValue];
    }
  }

  /** The body of the pass for page i: its new rank, and whether it moved by at least the threshold. */
  method UpdatePage(pages: Links, links: Links, damping: real, n: nat, pr: map<Page, real>, i: Page)
    returns (newValue: real, moved: bool)
    requires n > 0 && Feeds(pages, links, pr.Keys) && i in pr
    ensures newValue == NewRank(pages, links, damping, n, pr, i)
    ensures moved <==> Abs(pr[i] - NewRank(pages, links, damping, n, pr, i)) >= Threshold
  {
    if i in links {
      var sumation := InflowSum(links[i], pages, pr);
      newValue := (1.0 - damping) / n as real + damping * sumation;
    } else {
      newValue := (1.0 - damping) / n as real;
    }
    var diff := Abs(pr[i] - newValue);
    moved := diff >= Threshold;
  }

  /** The innermost loop: add up what each page linking to i passes on. */
  method InflowSum(from: set<Page>, pages: Links, pr: map<Page, real>) returns (sumation: real)
    requires forall j :: j in from ==> j in pr && j in pages && pages[j] != {}
    ensures sumation == Inflow(from, pages, pr)
  {
    sumation := 0.0;
    var rest := from;
    while rest != {}
      invariant rest <= from
      invariant sumation + Inflow(rest, pages, pr) == Inflow(from, pages, pr)
      decreases rest
    {
      var j :| j in rest;
      InflowPick(rest, pages, pr, j);
      sumation := sumation + pr[j] / |pages[j]| as real;
      rest := rest - {j};
    }
  }

  // ---------------------------------------------------------------------------
  // What one pass does

  /** Once the index is built and the ranks start out uniform, the passes can run. */
  lemma ReadyToIterate(order: seq<Page>, pages: Links)
    requires Enumerates(order, pages.Keys)
    ensures Ready(order, pages, ReverseIndex(pages), |pages|, Uniform(order).Keys)
  {
    DistinctSize(order);
    assert Uniform(order).Keys == pages.Keys;
  }

  /**
   While the pass advances, page order[p] keeps its starting rank until its
   own turn and holds from then on the value computed at its turn.
   */
  lemma {:induction false} PartialAt(order: seq<Page>, pages: Links, links: Links, damping: real, n: nat,
                                     pr: map<Page, real>, m: nat, p: nat)
    requires m <= |order| && Ready(order, pages, links, n, pr.Keys)
    requires Distinct(order) && p < |order|
    ensures Partial(order, pages, links, damping, n, pr, m)[order[p]] ==
      if p < m then Partial(order, pages, links, damping, n, pr, p + 1)[order[p]] else pr[order[p]]
    decreases m
  {
    if m > 0 && p != m - 1 {
      PartialAt(order, pages, links, damping, n, pr, m - 1, p);
    }
  }

  /** Pages outside `order` are never touched by the pass. */
  lemma {:induction false} PartialElsewhere(order: seq<Page>, pages: Links, links: Links, damping: real, n: nat,
                                            pr: map<Page, real>, m: nat, k: Page)
    requires m <= |order| && Ready(order, pages, links, n, pr.Keys)
    requires k in pr && k !in order
    ensures Partial(order, pages, links, damping, n, pr, m)[k] == pr[k]
    decreases m
  {
    if m > 0 {
      PartialElsewhere(order, pages, links, damping, n, pr, m - 1, k);
    }
  }

  /**
   The Gauss-Seidel shape of a pass: page order[q] gets the update rule
   applied to ranks in which the pages before it already hold their final
   value for this pass and the pages from it on still hold their value from
   before the pass.
   */
  lemma GaussSeidel(order: seq<Page>, pages: Links, links: Links, damping: real, n: nat,
                    pr: map<Page, real>, q: nat)
    requires Ready(order, pages, links, n, pr.Keys)
    requires Distinct(order) && q < |order|
    ensures var final := Partial(order, pages, links, damping, n, pr, |order|);
      var seen := Partial(order, pages, links, damping, n, pr, q);
      && final[order[q]] == NewRank(pages, links, damping, n, seen, order[q])
      && (forall p :: 0 <= p < q ==> seen[order[p]] == final[order[p]])
      && (forall p :: q <= p < |order| ==> seen[order[p]] == pr[order[p]])
  {
    var final := Partial(order, pages, links, damping, n, pr, |order|);
    var seen := Partial(order, pages, links, damping, n, pr, q);
    PartialAt(order, pages, links, damping, n, pr, |order|, q);
    forall p | 0 <= p < q
      ensures seen[order[p]] == final[order[p]]
    {
      PartialAt(order, pages, links, damping, n, pr, q, p);
      PartialAt(order, pages, links, damping, n, pr, |order|, p);
    }
    forall p | q <= p < |order|
      ensures seen[order[p]] == pr[order[p]]
    {
      PartialAt(order, pages, links, damping, n, pr, q, p);
    }
  }

  /** A page nobody links to ends every pass at exactly (1 - d)/n. */
  lemma UnlinkedGetsBase(order: seq<Page>, pages: Links, links: Links, damping: real, n: nat,
                         pr: map<Page, real>, q: nat)
    requires Ready(order, pages, links, n, pr.Keys)
    requires Distinct(order) && q < |order| && order[q] !in links
    ensures Partial(order, pages, links, damping, n, pr, |order|)[order[q]] == (1.0 - damping) / n as real
  {
    GaussSeidel(order, pages, links, damping, n, pr, q);
  }

  /** `change` is true exactly when some update of the pass moved its page by at least the threshold. */
  lemma {:induction false} MovedBeforeMeans(order: seq<Page>, pages: Links, links: Links, damping: real, n: nat,
                                            pr: map<Page, real>, m: nat)
    requires m <= |order| && Ready(order, pages, links, n, pr.Keys)
    ensures MovedBefore(order, pages, links, damping, n, pr, m) <==>
      exists q :: 0 <= q < m && MovedAt(order, pages, links, damping, n, pr, q)
    decreases m
  {
    if m > 0 {
      MovedBeforeMeans(order, pages, links, damping, n, pr, m - 1);
      if MovedAt(order, pages, links, damping, n, pr, m - 1) {
        assert exists q :: 0 <= q < m && MovedAt(order, pages, links, damping, n, pr, q);
      }
    }
  }

  /** The update of page order[q] moves it by as much as the whole pass moves it. */
  lemma MovedAtMeans(order: seq<Page>, pages: Links, links: Links, damping: real, n: nat, pr: map<Page, real>, q: nat)
    requires Ready(order, pages, links, n, pr.Keys)
    requires Distinct(order) && q < |order|
    ensures MovedAt(order, pages, links, damping, n, pr, q) <==>
      Abs(pr[order[q]] - Partial(order, pages, links, damping, n, pr, |order|)[order[q]]) >= Threshold
  {
    PartialAt(order, pages, links, damping, n, pr, q, q);
    PartialAt(order, pages, links, damping, n, pr, |order|, q);
  }

  /**
   Over a whole pass, `change` ends true exactly when some page ends the pass
   at least the threshold away from the rank it had when the pass began.
   */
  lemma ChangedMeans(order: seq<Page>, pages: Links, links: Links, damping: real, n: nat, pr: map<Page, real>)
    requires Ready(order, pages, links, n, pr.Keys)
    requires Distinct(order)
    ensures Changed(order, pages, links, damping, n, pr) <==>
      exists q :: 0 <= q < |order| &&
        Abs(pr[order[q]] - Partial(order, pages, links, damping, n, pr, |order|)[order[q]]) >= Threshold
  {
    MovedBeforeMeans(order, pages, links, damping, n, pr, |order|);
    if Changed(order, pages, links, damping, n, pr) {
      var q :| 0 <= q < |order| && MovedAt(order, pages, links, damping, n, pr, q);
      MovedAtMeans(order, pages, links, damping, n, pr, q);
    } else {
      forall q | 0 <= q < |order|
        ensures Abs(pr[order[q]] - Partial(order, pages, links, damping, n, pr, |order|)[order[q]]) < Threshold
      {
        MovedAtMeans(order, pages, links, damping, n, pr, q);
      }
    }
  }

  /** A pass that sets no `change` leaves every page less than the threshold from where it started. */
  lemma QuietPass(order: seq<Page>, pages: Links, links: Links, damping: real, n: nat, pr: map<Page, real>)
    requires Ready(order, pages, links, n, pr.Keys) && Distinct(order)
    requires !Changed(order, pages, links, damping, n, pr)
    ensures forall q :: 0 <= q < |order| ==>
      Abs(pr[order[q]] - Partial(order, pages, links, damping, n, pr, |order|)[order[q]]) < Threshold
  {
    ChangedMeans(order, pages, links, damping, n, pr);
  }

  /** Every rank is non-negative. */
  ghost predicate NonNegative(pr: map<Page, real>)
  {
    forall p :: p in pr ==> pr[p] >= 0.0
  }

  /** With non-negative ranks and a damping factor in [0, 1], a pass keeps every rank non-negative. */
  lemma {:induction false} PartialNonNegative(order: seq<Page>, pages: Links, links: Links, damping: real, n: nat,
                                              pr: map<Page, real>, m: nat)
    requires m <= |order| && Ready(order, pages, links, n, pr.Keys)
    requires 0.0 <= damping <= 1.0 && NonNegative(pr)
    ensures NonNegative(Partial(order, pages, links, damping, n, pr, m))
    decreases m
  {
    if m > 0 {
      PartialNonNegative(order, pages, links, damping, n, pr, m - 1);
      var before := Partial(order, pages, links, damping, n, pr, m - 1);
      var i := order[m - 1];
      assert Partial(order, pages, links, damping, n, pr, m) == before[i := NewRank(pages, links, damping, n, before, i)];
    }
  }

  // ---------------------------------------------------------------------------
  // The `while change` loop

  /** The ranks after t passes, each starting from the ranks the previous one left. */
  ghost function Rounds(order: seq<Page>, pages: Links, links: Links, damping: real, n: nat,
                        pr: map<Page, real>, t: nat): (cur: map<Page, real>)
    requires Ready(order, pages, links, n, pr.Keys)
    ensures cur.Keys == pr.Keys
    decreases t
  {
    if t == 0 then pr
    else
      var before := Rounds(order, pages, links, damping, n, pr, t - 1);
      Partial(order, pages, links, damping, n, before, |order|)
  }

  /** Ranks that start non-negative stay non-negative through any number of passes. */
  lemma {:induction false} RoundsNonNegative(order: seq<Page>, pages: Links, links: Links, damping: real, n: nat,
                                             pr: map<Page, real>, t: nat)
    requires Ready(order, pages, links, n, pr.Keys)
    requires 0.0 <= damping <= 1.0 && NonNegative(pr)
    ensures NonNegative(Rounds(order, pages, links, damping, n, pr, t))
    decreases t
  {
    if t > 0 {
      RoundsNonNegative(order, pages, links, damping, n, pr, t - 1);
      PartialNonNegative(order, pages, links, damping, n, Rounds(order, pages, links, damping, n, pr, t - 1), |order|);
    }
  }

  /** The pass that starts after t passes moves some rank by at least the threshold. */
  ghost predicate ChangedAfter(order: seq<Page>, pages: Links, links: Links, damping: real, n: nat,
                               pr: map<Page, real>, t: nat)
    requires Ready(order, pages, links, n, pr.Keys)
  {
    Changed(order, pages, links, damping, n, Rounds(order, pages, links, damping, n, pr, t))
  }

  /** Each of the first t passes moved some rank by at least the threshold, so the loop went on after it. */
  ghost predicate KeptGoing(order: seq<Page>, pages: Links, links: Links, damping: real, n: nat,
                            pr: map<Page, real>, t: nat)
    requires Ready(order, pages, links, n, pr.Keys)
  {
    t == 0 || (KeptGoing(order, pages, links, damping, n, pr, t - 1) && ChangedAfter(order, pages, links, damping, n, pr, t - 1))
  }

  lemma {:induction false} KeptGoingMeans(order: seq<Page>, pages: Links, links: Links, damping: real, n: nat,
                                          pr: map<Page, real>, t: nat)
    requires Ready(order, pages, links, n, pr.Keys)
    ensures KeptGoing(order, pages, links, damping, n, pr, t) <==>
      forall s :: 0 <= s < t ==> ChangedAfter(order, pages, links, damping, n, pr, s)
  {
    if t > 0 {
      KeptGoingMeans(order, pages, links, damping, n, pr, t - 1);
    }
  }

  /**
   When the loop stops on its own after t passes, the last pass left every
   page less than the threshold away from where it started that pass (and,
   by KeptGoingMeans, every pass before it moved some page by the threshold).
   */
  lemma ConvergedMeans(order: seq<Page>, pages: Links, links: Links, damping: real, n: nat,
                       pr: map<Page, real>, t: nat)
    requires Ready(order, pages, links, n, pr.Keys) && Distinct(order)
    requires t > 0 && KeptGoing(order, pages, links, damping, n, pr, t - 1)
    requires !KeptGoing(order, pages, links, damping, n, pr, t)
    ensures var last := Rounds(order, pages, links, damping, n, pr, t - 1);
      var final := Rounds(order, pages, links, damping, n, pr, t);
      forall q :: 0 <= q < |order| ==> Abs(last[order[q]] - final[order[q]]) < Threshold
  {
    var last := Rounds(order, pages, links, damping, n, pr, t - 1);
    RoundsStep(order, pages, links, damping, n, pr, t - 1);
    assert !Changed(order, pages, links, damping, n, last);
    QuietPass(order, pages, links, damping, n, last);
  }

  /** Unfolds Rounds and KeptGoing by one pass. */
  lemma RoundsStep(order: seq<Page>, pages: Links, links: Links, damping: real, n: nat, pr: map<Page, real>, t: nat)
    requires Ready(order, pages, links, n, pr.Keys)
    ensures var cur := Rounds(order, pages, links, damping, n, pr, t);
      && Rounds(order, pages, links, damping, n, pr, t + 1) == Partial(order, pages, links, damping, n, cur, |order|)
      && (KeptGoing(order, pages, links, damping, n, pr, t + 1) <==>
          KeptGoing(order, pages, links, damping, n, pr, t) && Changed(order, pages, links, damping, n, cur))
  {
  }

  /**
   The `while change` loop. The source repeats passes until one of them moves
   no page by the threshold; here at most `fuel` passes are run. `converged`
   says that the loop stopped because the last pass moved nothing by the
   threshold, and `passes` counts the passes run.
   */
  method RunPasses(order: seq<Page>, pages: Links, links: Links, damping: real, n: nat,
                   start: map<Page, real>, fuel: nat)
    returns (pr: map<Page, real>, converged: bool, passes: nat)
    requires Ready(order, pages, links, n, start.Keys)
    ensures pr == Rounds(order, pages, links, damping, n, start, passes)
    ensures passes <= fuel && (!converged ==> passes == fuel)
    ensures converged <==> !KeptGoing(order, pages, links, damping, n, start, passes)
    ensures passes > 0 ==> KeptGoing(order, pages, links, damping, n, start, passes - 1)
  {
    pr := start;
    var change := true;
    passes := 0;
    while change && passes < fuel
      invariant passes <= fuel
      invariant pr == Rounds(order, pages, links, damping, n, start, passes)
      invariant change <==> KeptGoing(order, pages, links, damping, n, start, passes)
      invariant passes > 0 ==> KeptGoing(order, pages, links, damping, n, start, passes - 1)
      decreases fuel - passes
    {
      RoundsStep(order, pages, links, damping, n, start, passes);
      pr, change := UpdatePass(order, pages, links, damping, n, pr);
      passes := passes + 1;
    }
    converged := !change;
  }

  /**
   iterate_pagerank: rewrite the dangling pages of the caller's corpus, build
   the inbound index, start every rank at 1/n and run the passes.
   */
  method IteratePageRank(corpus: Corpus, damping: real, fuel: nat)
    returns (pr: map<Page, real>, converged: bool, passes: nat)
    requires corpus.Valid()
    modifies corpus
    ensures corpus.order == old(corpus.order)
    ensures corpus.pages == Filled(old(corpus.pages))
    ensures Ready(corpus.order, corpus.pages, ReverseIndex(corpus.pages), |corpus.order|, Uniform(corpus.order).Keys)
    ensures pr == Rounds(corpus.order, corpus.pages, ReverseIndex(corpus.pages), damping, |corpus.order|,
                         Uniform(corpus.order), passes)
    ensures passes <= fuel && (!converged ==> passes == fuel)
    ensures converged <==> !KeptGoing(corpus.order, corpus.pages, ReverseIndex(corpus.pages), damping,
                                      |corpus.order|, Uniform(corpus.order), passes)
    ensures passes > 0 ==> KeptGoing(corpus.order, corpus.pages, ReverseIndex(corpus.pages), damping,
                                     |corpus.order|, Uniform(corpus.order), passes - 1)
  {
    var n := |corpus.pages|;
    FillDangling(corpus);
    assert corpus.pages.Keys == old(corpus.pages).Keys;
    var links := BuildReverseIndex(corpus);
    var start := InitialRanks(corpus, n);
    ReadyToIterate(corpus.order, corpus.pages);
    pr, converged, passes := RunPasses(corpus.order, corpus.pages, links, damping, n, start, fuel);
  }
}
