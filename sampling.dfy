/**
 sample_pagerank: estimate PageRank by a random walk of a fixed number of
 steps. The random draws are an input here: `start` is the page the walk
 begins on and `draws[t]` the page drawn at step t from the current page's
 transition distribution.
 */
module Sampling {
  import opened Graph
  import opened Transition

  /** The pages the walk stands on at steps 0 .. |draws| - 1: the start page, then every draw but the last. */
  function Walk(start: Page, draws: seq<Page>): (visits: seq<Page>)
    ensures |visits| == |draws|
    ensures draws != [] ==> visits[0] == start
    ensures forall t :: 0 < t < |draws| ==> visits[t] == draws[t - 1]
  {
    if draws == [] then [] else [start] + draws[..|draws| - 1]
  }

  /**
   What a weighted draw can return: each page drawn is an entry of the current
   page's row of the transition table, and one with positive weight.
   */
  ghost predicate Drawable(table: map<Page, map<Page, real>>, start: Page, draws: seq<Page>)
  {
    && start in table
    && forall t {:trigger Walk(start, draws)[t]} :: 0 <= t < |draws| ==>
         var here := Walk(start, draws)[t];
         here in table && draws[t] in table[here] && table[here][draws[t]] > 0.0
  }

  /**
   Draws from a table whose rows cover exactly the corpus, as the rows of
   TransitionTable do, never leave the corpus, so SamplePageRank's walk stays
   on corpus pages.
   */
  lemma DrawsStayInCorpus(pages: Links, table: map<Page, map<Page, real>>, start: Page, draws: seq<Page>)
    requires table.Keys == pages.Keys && forall p :: p in table ==> table[p].Keys == pages.Keys
    requires Drawable(table, start, draws)
    ensures start in pages
    ensures forall t :: 0 <= t < |draws| ==> draws[t] in pages
    ensures forall v :: v in Walk(start, draws) ==> v in pages
  {
    forall t | 0 <= t < |draws|
      ensures draws[t] in pages
    {
      var here := Walk(start, draws)[t];
      assert here in table && draws[t] in table[here];
    }
  }

  /**
   sample_pagerank: the table of transition distributions is built and the
   walk draws from its rows; the estimates are the visit counts over the
   number of steps.
   */
  method SamplePageRank(pages: Links, damping: real, n: nat, start: Page, draws: seq<Page>)
    returns (ans: map<Page, real>)
    requires |draws| == n && Drawable(TransitionTable(pages, damping), start, draws)
    ensures ans.Keys == set p | p in Walk(start, draws)
    ensures forall p :: p in ans ==> ans[p] == multiset(Walk(start, draws))[p] as real / n as real
    ensures ans.Keys <= pages.Keys
  {
    var table := TransitionTable(pages, damping);
    ans := Estimate(pages, table, n, start, draws);
  }

  /**
   The walk over any table whose rows cover the corpus: one counter per
   visited page, incremented on every step, then divided by the number of
   steps. This is SamplePageRank once the table is built, kept apart so
   that the definition of the transition table stays out of its proof.
   */
  method Estimate(pages: Links, table: map<Page, map<Page, real>>, n: nat, start: Page, draws: seq<Page>)
    returns (ans: map<Page, real>)
    requires table.Keys == pages.Keys && forall p :: p in table ==> table[p].Keys == pages.Keys
    requires |draws| == n && Drawable(table, start, draws)
    ensures ans.Keys == set p | p in Walk(start, draws)
    ensures forall p :: p in ans ==> ans[p] == multiset(Walk(start, draws))[p] as real / n as real
    ensures ans.Keys <= pages.Keys
  {
    DrawsStayInCorpus(pages, table, start, draws);
    var counts, seen := CountVisits(start, draws);
    if seen != [] {
      assert seen[0] in seen;
      assert seen[0] in counts.Keys;
      assert seen[0] in Walk(start, draws);
    }
    ans := Normalise(counts, seen, n);
  }

  /**
   The walk of sample_pagerank: n steps, each adding one to the counter of
   the page it stands on. `seen` lists each counted page once.
   */
  method CountVisits(start: Page, draws: seq<Page>) returns (counts: map<Page, real>, seen: seq<Page>)
    ensures Distinct(seen) && forall p :: p in counts <==> p in seen
    ensures counts.Keys == set p | p in Walk(start, draws)
    ensures forall p :: p in counts ==> counts[p] == multiset(Walk(start, draws))[p] as real
  {
    ghost var visits := Walk(start, draws);
    var state := start;
    counts := map[];
    seen := [];
    ghost var walked: seq<Page> := [];
    for i := 0 to |draws|
      invariant walked == visits[..i]
      invariant i < |draws| ==> state == visits[i]
      invariant Counting(counts, seen, walked)
    {
      counts, seen := Visit(counts, seen, state, walked);
      assert visits[..i + 1] == visits[..i] + [state];
      walked := walked + [state];
      // the next page: draws[i], which stands for the weighted draw from the current page's row
      state := draws[i];
    }
    assert walked == visits;
  }

  /**
   The counters count the pages of `walked`: one counter per page visited,
   holding its number of visits, and `seen` lists the counted pages once each.
   */
  ghost predicate Counting(counts: map<Page, real>, seen: seq<Page>, walked: seq<Page>)
  {
    && Distinct(seen)
    && (forall p :: p in counts <==> p in seen)
    && (forall p :: p in counts <==> p in walked)
    && (forall p :: p in counts ==> counts[p] == multiset(walked)[p] as real)
  }

  /**
   One step of the walk: the counter of `state`, 0 when missing, goes up by
   one, so the counters go from counting the pages of `walked` to counting
   those of `walked + [state]`.
   */
  method Visit(counts: map<Page, real>, seen: seq<Page>, state: Page, ghost walked: seq<Page>)
    returns (next: map<Page, real>, seenNext: seq<Page>)
    requires Counting(counts, seen, walked)
    ensures Counting(next, seenNext, walked + [state])
  {
    assert multiset(walked + [state]) == multiset(walked) + multiset{state};
    if state in counts {
      next := counts[state := counts[state] + 1.0];
      seenNext := seen;
    } else {
      next := counts[state := 0.0 + 1.0];
      seenNext := seen + [state];
    }
  }

  /** The last loop of sample_pagerank: every counter, visited in insertion order, is divided by n. */
  method Normalise(counts: map<Page, real>, seen: seq<Page>, n: nat) returns (ans: map<Page, real>)
    requires Distinct(seen) && forall p :: p in counts <==> p in seen
    requires seen != [] ==> n > 0
    ensures ans.Keys == counts.Keys
    ensures forall p :: p in ans ==> ans[p] == counts[p] / n as real
  {
    ans := counts;
    for k := 0 to |seen|
      invariant ans.Keys == counts.Keys
      invariant forall p :: p in ans ==> ans[p] == if p in seen[..k] then counts[p] / n as real else counts[p]
    {
      assert seen[..k + 1] == seen[..k] + [seen[k]];
      assert seen[k] !in seen[..k];
      ans := ans[seen[k] := ans[seen[k]] / n as real];
    }
    assert seen[..|seen|] == seen;
  }

  /** Every step adds one visit, so over a list of all pages the visit counts add up to the number of steps. */
  lemma {:induction false} VisitsAddUp(order: seq<Page>, visits: seq<Page>)
    requires Distinct(order)
    requires forall v :: v in visits ==> v in order
    ensures Tally(order, visits) == |visits|
  {
    if visits != [] {
      var last := |visits| - 1;
      var v := visits[last];
      assert visits == visits[..last] + [v];
      assert forall u :: u in visits[..last] ==> u in visits;
      VisitsAddUp(order, visits[..last]);
      TallyAppend(order, visits[..last], v);
      assert v in visits;
      CountInSubset(order, {v});
    } else {
      NothingTallied(order);
    }
  }

  lemma {:induction false} NothingTallied(order: seq<Page>)
    ensures Tally(order, []) == 0
  {
    if order != [] {
      NothingTallied(order[1..]);
    }
  }

  /** The visit counts of the pages in `order`, added up. */
  function Tally(order: seq<Page>, visits: seq<Page>): (total: nat)
  {
    if order == [] then 0 else multiset(visits)[order[0]] + Tally(order[1..], visits)
  }

  /** One more visit to `v` adds one to the tally for every position of `order` holding `v`. */
  lemma {:induction false} TallyAppend(order: seq<Page>, visits: seq<Page>, v: Page)
    ensures Tally(order, visits + [v]) == Tally(order, visits) + CountIn(order, {v})
  {
    if order != [] {
      TallyAppend(order[1..], visits, v);
    }
  }

  /** Dividing every count by the number of steps divides their total by it. */
  lemma {:induction false} SumOfShares(order: seq<Page>, visits: seq<Page>, ans: map<Page, real>)
    requires |visits| > 0
    requires ans.Keys == set p | p in visits
    requires forall p :: p in ans ==> ans[p] == multiset(visits)[p] as real / |visits| as real
    ensures Sum(order, ans) == Tally(order, visits) as real / |visits| as real
  {
    if order != [] {
      SumOfShares(order[1..], visits, ans);
      var n := |visits| as real;
      var c := multiset(visits)[order[0]];
      var rest := Tally(order[1..], visits);
      var head := if order[0] in ans then ans[order[0]] else 0.0;
      assert head == c as real / n by {
        if order[0] !in ans {
          assert c == 0;
        }
      }
      assert Sum(order, ans) == head + rest as real / n;
      AddShares(c as real, rest as real, n);
    }
  }

  /** Shares of the same whole add up. */
  lemma AddShares(a: real, b: real, n: real)
    requires n > 0.0
    ensures a / n + b / n == (a + b) / n
  {
  }

  /**
   With at least one step and a walk that stays in the corpus, the estimates
   are probabilities that sum to 1 over the corpus.
   */
  lemma SampleSumsToOne(pages: Links, order: seq<Page>, start: Page, draws: seq<Page>, ans: map<Page, real>)
    requires Enumerates(order, pages.Keys) && |draws| > 0
    requires forall v :: v in Walk(start, draws) ==> v in pages
    requires ans.Keys == set p | p in Walk(start, draws)
    requires forall p :: p in ans ==> ans[p] == multiset(Walk(start, draws))[p] as real / |draws| as real
    ensures Sum(order, ans) == 1.0
    ensures forall p :: p in ans ==> 0.0 < ans[p] <= 1.0
  {
    var visits := Walk(start, draws);
    VisitsAddUp(order, visits);
    SumOfShares(order, visits, ans);
    ShareBounds(Tally(order, visits) as real, |visits| as real);
    forall p | p in ans
      ensures 0.0 < ans[p] <= 1.0
    {
      VisitsAtMost(visits, p);
      ShareBounds(multiset(visits)[p] as real, |visits| as real);
    }
  }

  /** No page is visited more often than there are steps. */
  lemma VisitsAtMost(visits: seq<Page>, p: Page)
    ensures multiset(visits)[p] <= |visits|
  {
  }

  /** A part of a positive whole, divided by the whole, is a probability; the whole itself gives 1. */
  lemma ShareBounds(c: real, n: real)
    requires 0.0 < c <= n
    ensures 0.0 < c / n <= 1.0
    ensures c == n ==> c / n == 1.0
  {
  }
}
