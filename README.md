# PageRank engine, modelled in Dafny

This project models the PageRank engine of `pagerank.py`. A corpus is a
dictionary from page name to the set of pages it links to. Two estimators of
PageRank run over it:

- **sampling** (`sample_pagerank`): a random surfer walks `n` steps. Each step
  follows the transition distribution of the current page (`transition_model`),
  and the visit counts are divided by `n`.
- **iteration** (`iterate_pagerank`): the estimator first rewrites every page
  without links so that it links to every page. It then builds the index of
  inbound links and starts every rank at 1/n. After that it repeats update
  passes until a pass moves no page by 0.001 or more.

Quantities are exact reals (`real`), not floats.

Modules:

- `Graph` (graph.dfy) holds the page graph and the crawl filter that gives the
  graph its shape (every link names a corpus page, no page links to itself).
  The caller's dictionary is a `Corpus` object with the mapping and the
  insertion order of its keys, because `iterate_pagerank` overwrites entries of
  it in place. Python iterates over dictionaries in insertion order, which the
  model keeps.
- `Transition` (transition.dfy) holds `transition_model` as a function, with
  the proof that each distribution sums to 1 and that its entries are
  probabilities.
- `Sampling` (sampling.dfy) holds `sample_pagerank` as methods over an input
  sequence of drawn pages. It proves that the estimates are visit counts over
  `n` and that they sum to 1.
- `Iteration` (iteration.dfy) holds `iterate_pagerank` as methods:
  - the dangling rewrite that changes the caller's corpus;
  - the building of the reverse index;
  - the initial ranks;
  - the pass;
  - the `while change` loop.

  Ghost functions specify these steps: `Filled`, `ReverseIndex`, `Uniform`,
  `Partial` (a pass, page by page), `Rounds` (passes in a row) and `KeptGoing`.
  Lemmas prove the pass's Gauss–Seidel shape and what the exit condition
  guarantees.

Behaviour kept from the code, where the docstrings or a textbook reading of
the algorithm would suggest otherwise:

- `iterate_pagerank` does not work on a copy. It overwrites the dangling
  entries of the dictionary it was given (pagerank.py:121), so
  `IteratePageRank` has `modifies corpus` and its postcondition gives the new
  corpus.
- A pass is not a synchronous (Jacobi) update. Each page's new rank is stored
  at once (pagerank.py:153, 160), and the pages after it in the same pass read
  it. `GaussSeidel` states exactly which values a page reads.
- When some page was dangling, every page is guaranteed an inbound link after
  the rewrite (`EveryPageFedAfterFill`). Without a dangling page, a page nobody
  links to takes the fallback branch and gets (1 − d)/n (`UnlinkedGetsBase`).
- An empty corpus makes `iterate_pagerank` return an empty result with no
  division: every division sits inside a loop over the pages. The model needs
  no non-empty precondition there. `sample_pagerank` with `n = 0` also returns
  an empty result.

## Model

| member | source | states |
|---|---|---|
| Graph.KeepCorpusLinks | pagerank.py:42-46 | same pages; a page keeps exactly those of its links that name corpus pages, so the graph is closed |
| Graph.Corpus.Valid | pagerank.py:117-143 | the caller's dictionary, updated in place: its mapping, and its keys listed once each in the insertion order every `for` loop over it follows |
| Graph.FilteredIsCrawled | pagerank.py:39-46 | with self links removed when a page is read, the filtered graph has no self links and no links leaving the corpus |
| Transition.TransitionModel | pagerank.py:60-79 | keys are exactly the corpus pages; for a page with k > 0 links, linked pages get d/k + (1−d)/n and the others (1−d)/n; for a dangling page every page, itself included, gets 1/n whatever d is |
| Transition.TransitionTable | pagerank.py:91-93 | one row per corpus page, each row covering every corpus page |
| Transition.CrawledTableSumsToOne | pagerank.py:39-93 | on a corpus that passed the crawl filter, every row of the table sums to 1 |
| Transition.TransitionSumsToOne | pagerank.py:60-77 | when the page's links stay in the corpus, its distribution sums to 1 over the corpus |
| Transition.TransitionBounds | pagerank.py:62-77 | for 0 ≤ d ≤ 1 every entry lies in [0, 1] |
| Sampling.Walk | pagerank.py:95-101 | the page the walk stands on at each step is the start page, then each draw but the last |
| Sampling.Drawable | pagerank.py:95-101 | what the random draws can return: the start page has a row in the table (for TransitionTable, it is a corpus page), and each draw is an entry of positive weight in the current page's row of the table |
| Sampling.DrawsStayInCorpus | pagerank.py:91-101 | draws taken from the rows of a table covering the corpus (as TransitionTable's rows do) are corpus pages, so every page the walk stands on is one |
| Sampling.SamplePageRank | pagerank.py:82-105 | with the draws taken from the rows of the table it builds, result keys are exactly the visited pages, all of them corpus pages, and each value is the page's visit count divided by n |
| Sampling.Estimate | pagerank.py:95-105 | for draws from any table whose rows cover the corpus, the walk's counters divided by n: keys are the visited pages, all corpus pages, each value its visit count over n |
| Sampling.CountVisits | pagerank.py:95-101 | after the walk, one counter per visited page holding its number of visits; `seen` lists each counted page once |
| Sampling.Visit | pagerank.py:99 | one step adds one to the current page's counter, starting from 0 when missing, and touches no other counter |
| Sampling.Normalise | pagerank.py:103-104 | same keys, every counter divided by n |
| Sampling.VisitsAddUp | pagerank.py:97-99 | over the corpus, the visit counts add up to the number of steps |
| Sampling.SampleSumsToOne | pagerank.py:87-89 | with n ≥ 1, the estimates are in (0, 1] and sum to 1 over the corpus |
| Iteration.Filled | pagerank.py:119-121 | same pages; a dangling page now links to every page, every other entry is unchanged, no page is left without links |
| Iteration.FillDangling | pagerank.py:119-121 | the caller's corpus becomes Filled of what it was; its key order is unchanged |
| Iteration.FilledStaysClosed | pagerank.py:119-121 | the rewrite keeps every link inside the corpus |
| Iteration.FilledIdempotent | pagerank.py:119-121 | rewriting again changes nothing; a corpus without dangling pages is left as it is |
| Iteration.ReverseIndex | pagerank.py:122-133 | j is in links[i] exactly when page j links to i; i is a key only when some page links to it, and no entry is empty |
| Iteration.BuildReverseIndex | pagerank.py:122-133 | the index the loops build is ReverseIndex of the corpus |
| Iteration.RecordLinks | pagerank.py:127-133 | one page's links: it is added to the inbound set of each page it links to, and nothing else changes |
| Iteration.EveryPageFedAfterFill | pagerank.py:119-133 | if some page was dangling, every page has an inbound link after the rewrite |
| Iteration.Uniform | pagerank.py:136-138 | every page of the corpus at rank 1/n |
| Iteration.UniformIsDistribution | pagerank.py:136-138 | the starting ranks are in (0, 1] and sum to 1 |
| Iteration.InitialRanks | pagerank.py:136-138 | the loop builds Uniform of the corpus |
| Iteration.ReadyToIterate | pagerank.py:117-138 | after the setup, n is the number of pages and every page named by the index has links and a rank |
| Iteration.Inflow | pagerank.py:147-148 | the sum of rank/out-degree over a set of inbound pages; non-negative ranks give a non-negative sum |
| Iteration.InflowPick | pagerank.py:147-148 | the sum over a set of inbound pages does not depend on the order in which the set is visited |
| Iteration.InflowSum | pagerank.py:144-148 | the inner loop adds up rank/out-degree over the inbound pages |
| Iteration.NewRank | pagerank.py:144-156 | the update rule: (1−d)/n + d·inflow with inbound links, (1−d)/n without; for 0 ≤ d ≤ 1 and non-negative ranks it is at least (1−d)/n ≥ 0 |
| Iteration.Partial | pagerank.py:143-160 | the ranks after the first m pages of a pass have been updated in turn, each reading the ranks the earlier ones left; the ranked pages stay the same |
| Iteration.MovedAt | pagerank.py:150-158 | the per-page test `diff >= 0.001`: updating the m-th page of the pass moves its rank by at least the threshold |
| Iteration.MovedBefore | pagerank.py:142-159 | the `change` flag after the first m updates of a pass, one update at a time (read as a quantifier by MovedBeforeMeans) |
| Iteration.Changed | pagerank.py:142-160 | the `change` flag at the end of a pass (read by ChangedMeans) |
| Iteration.UpdatePage | pagerank.py:145-160 | the new rank is (1−d)/n + d·Σ pr[j]/|corpus[j]| with inbound links and (1−d)/n without; `change` is set exactly when it moves the rank by ≥ 0.001 |
| Iteration.UpdatePass | pagerank.py:142-160 | a pass yields the page-by-page Partial update, and `change` ends true exactly when some update moved its page by ≥ 0.001 |
| Iteration.PartialAt | pagerank.py:143-160 | during a pass a page keeps its old rank until its turn and then holds the value computed at its turn |
| Iteration.PartialElsewhere | pagerank.py:143-160 | a pass never touches a rank outside the pages it visits |
| Iteration.GaussSeidel | pagerank.py:143-160 | each page's new rank is the update rule applied to ranks in which earlier pages already hold this pass's values and later pages still hold the previous ones |
| Iteration.UnlinkedGetsBase | pagerank.py:154-160 | a page without inbound links ends every pass at exactly (1−d)/n |
| Iteration.MovedBeforeMeans | pagerank.py:142-159 | `change` after the first m updates holds exactly when one of them moved its page by ≥ 0.001 |
| Iteration.MovedAtMeans | pagerank.py:150-159 | a page's update moves it by as much as the whole pass moves it |
| Iteration.ChangedMeans | pagerank.py:141-160 | a pass sets `change` exactly when some page ends it ≥ 0.001 away from its rank at the start of the pass |
| Iteration.QuietPass | pagerank.py:141-160 | a pass that leaves `change` false moved every page by less than 0.001 |
| Iteration.PartialNonNegative | pagerank.py:143-160 | a pass keeps ranks non-negative |
| Iteration.Rounds | pagerank.py:139-160 | successive passes keep the same set of ranked pages |
| Iteration.RoundsNonNegative | pagerank.py:139-160 | ranks stay non-negative through any number of passes |
| Iteration.ChangedAfter | pagerank.py:141-159 | the `change` flag left by the pass that starts after t passes, which the `while change` guard reads |
| Iteration.KeptGoing | pagerank.py:140-142 | the `while change` loop runs a pass after each of the first t passes, pass by pass (read as a quantifier by KeptGoingMeans) |
| Iteration.KeptGoingMeans | pagerank.py:141-142 | the loop continues past t passes exactly when each of them moved some page by ≥ 0.001 |
| Iteration.ConvergedMeans | pagerank.py:139-161 | when the loop stops on its own, the last pass moved every page by less than 0.001 |
| Iteration.RunPasses | pagerank.py:139-161 | the ranks are those after the passes run; the loop stopped either at the first pass that moved nothing by 0.001 or when the fuel ran out, every earlier pass having moved something |
| Iteration.IteratePageRank | pagerank.py:108-161 | the caller's corpus is rewritten, and the result is the passes of the `while change` loop from ranks 1/n over the reverse index of the rewritten corpus, with RunPasses' exit condition |

## Left out

- `main` (pagerank.py:10-21) is not modelled: argument handling and printing, including the `:.4f` formatting.
- The file and regex side of `crawl` (pagerank.py:33-38) is not modelled: directory listing, file reading and `re.findall` are I/O and a regex library. Their result enters only as the precondition of `FilteredIsCrawled`, that no page links to itself (pagerank.py:39).
- `random.choice` and `random.choices` (pagerank.py:95, 101) are not modelled. The start page and the sequence of drawn pages are inputs. SamplePageRank requires each draw to be an entry of positive weight in the current page's row of `TransitionTable` (`Drawable`), but the weighting of the draws and any statistical accuracy are not modelled.
- Floating point is not modelled: every quantity is an exact real, so rounding, and any order-dependence of float sums, is absent.
- IteratePageRank: the `while change` loop has no bound in the source, and its termination is not proved. The model runs at most `fuel` passes and reports whether it stopped on its own (`converged`).
- IteratePageRank: the docstring's promise that the ranks sum to 1 is not proved. Gauss–Seidel passes do not keep the sum of the ranks at 1.
- RoundsNonNegative: only the lower bound 0 of the docstring's "between 0 and 1" is proved for the iterated ranks; the upper bound is not proved.
- RecordLinks: the source adds to the stored set in place (pagerank.py:130). The model stores the enlarged set as a new value. Nothing else refers to that set, so the difference is not visible.
- The unknown-page and empty-corpus failures of the source become preconditions. `transition_model` needs `page in corpus`. `sample_pagerank` needs a start page in the corpus, which `random.choice` cannot give for an empty corpus.
