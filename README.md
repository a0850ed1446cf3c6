# PageRank of a small corpus of linked pages

This project models the ranking logic of `pagerank.py` and proves properties about it. The program reads a corpus of HTML pages and keeps, for every page, the set of pages it links to. It then ranks the pages in two independent ways:

- **Random surfer.** `sample_pagerank` and `get_sample` simulate a surfer for `SAMPLES` = 10000 steps. Each step follows `transition_model`. A page's rank is the share of steps that landed on it.
- **Iterative solver.** `iterate_pagerank`, `formula` and `summing` repeat the PageRank recurrence. They stop when no page's absolute change, rounded to three decimals, exceeds 0.001. Then they divide every rank by the total.

All probabilities and ranks are Dafny `real`s. A Python dictionary is a Dafny `map`. The order the program iterates a dictionary in is an explicit parameter `order: seq<Page>`. `IsOrder(order, c.Keys)` says it lists every key exactly once. Sums are taken along that order (`Sums.Sum`).

The modules follow the program:

- `Corpus` (`corpus.dfy`): pages, link maps, rank maps, and the link filtering of `crawl`.
- `Sums` (`sums.dfy`): sums of rank maps and counts along an order.
- `Transition` (`transition.dfy`): `transition_model`.
- `Sampler` (`sampler.dfy`): `sample_pagerank` and `get_sample`.
- `Solver` (`solver.dfy`): `iterate_pagerank`, `formula`, `summing` and `check_differences`.

The source changes dictionaries step by step, so each of its loops is a `method` with loop invariants. Each method is proved equal to a specification function, and the properties are lemmas about those functions:

- `Cleaned` specifies the filtering in `crawl`.
- `Distribution` specifies `transition_model`.
- `CountIn` specifies the sampler's counters.
- `Sweep`, `Sweeps`, `Changes`, `Round3`, `CheckDifferences` and `Normalized` specify the solver.

The two tail recursions, `get_sample` and `formula`, are `while` loops.

Randomness is an oracle, passed in as parameters:

- the page `random.choice` starts from;
- `draws`, the page `random.choices` returns at each step.

The proofs hold for every such choice sequence. The only assumption is that each drawn page is a page of the corpus.

Where the code departs from standard PageRank, or from what its own doc comments suggest, the model follows the code:

- **Dangling pages in the solver.** A page without links is never anyone's predecessor in `formula`, so its rank is not passed on. Each sweep loses that mass, and the final division restores a total of 1. Standard PageRank instead spreads a dangling page's rank evenly over every page, as `transition_model` does for the surfer (lines 69-71). `Solver.Predecessors` states that every predecessor has a non-empty link set, so the dangling branch of `summing` (lines 147-148) is never taken.
- **Updates in place.** A sweep updates ranks in place, in corpus order (line 169). Pages later in a sweep read values already updated earlier in the same sweep (`Solver.GaussSeidel`). Only the convergence test compares with a copy taken before the sweep (line 162).
- **Sampling.** The sampler ignores its parameter `n`. It always takes `SAMPLES` steps, does not count the start page, and divides by `SAMPLES` without further normalisation.
- **No input validation.** Nothing checks the input. An empty corpus makes `random.choice` fail in the sampler. The solver returns an empty map for it. The final division of the solver raises `ZeroDivisionError` exactly when the total is 0 and there is at least one page (`Solver.Outcome`).

## Model

| member | source | states |
|---|---|---|
| Corpus.CleanedIsValid | pagerank.py:40-47 | Filtering keeps the set of pages. It leaves no self-link and no link to a page outside the corpus. A link survives exactly when it was a raw link of that page, is not the page itself, and is a page of the corpus. |
| Corpus.CleanedFixesValid | pagerank.py:40-47 | A corpus that already has no self-link and no outside link passes through the filtering unchanged. |
| Corpus.CleanedIdempotent | pagerank.py:40-47 | Filtering twice gives the same corpus as filtering once. |
| Corpus.Crawl | pagerank.py:40-47 | The two loops of `crawl` compute exactly `Cleaned`: first the self-link is removed (line 40), then links to pages outside the corpus (lines 43-47). The result has the raw key set and is valid. |
| Transition.DistributionKeys | pagerank.py:61-73 | The distribution has an entry for every page of the corpus and no other key. |
| Transition.DistributionDangling | pagerank.py:69-71 | From a page without links every page gets exactly `1/N`. |
| Transition.DistributionLinked | pagerank.py:63-68 | From a page with links, a page it does not link to gets exactly `(1-d)/N`. A page it links to gets `(1-d)/N + d/len(L)`. |
| Transition.DistributionSumsToOne | pagerank.py:61-73 | The distribution sums to 1 for every damping factor, provided the page's links are pages of the corpus. |
| Transition.LinkedSumsToOne | pagerank.py:63-68 | `N` teleport shares plus `len(L)` link shares on distinct pages of the corpus sum to 1. |
| Transition.UniformSumsToOne | pagerank.py:69-71 | `N` uniform shares `1/N` sum to 1. |
| Transition.Fill | pagerank.py:64-65 | The filling loop gives every page of the iteration order the same value, and gives no other key. |
| Transition.AddToEach | pagerank.py:67-68 | The `+=` loop adds the share to every linked page, leaves the other entries as they were, and adds no key. |
| Transition.TransitionModel | pagerank.py:52-73 | `transition_model` returns exactly `Distribution`, and its values sum to 1. |
| Sampler.MultiplicityBound | pagerank.py:137 | A page is counted at most once per draw, so its counter never exceeds the number of steps. |
| Sampler.TallySum | pagerank.py:135-137 | Counters that start at 0 (lines 88-89) and are incremented once per draw, after draws that are all pages of the corpus, sum to the number of draws. |
| Sampler.OneMoreVisit | pagerank.py:137 | Incrementing one existing counter adds exactly 1 to the sum of the counters. |
| Sampler.CountStep | pagerank.py:135-137 | One more draw adds 1 to the count of the drawn page and 0 to every other count. |
| Sampler.VisitStep | pagerank.py:137-138 | After a step, each counter equals its start value plus the visits among the draws so far. No key is added. |
| Sampler.Draw | pagerank.py:129-136 | One step builds the transition model of the current page, and the page drawn is a key of that model, hence a page of the corpus. |
| Sampler.GetSample | pagerank.py:124-139 | From step `count0` to `SAMPLES`, every counter grows by exactly the number of times its page is drawn. The start page is not counted and the key set is unchanged. |
| Sampler.ZeroCounts | pagerank.py:88-89 | The first loop creates a zero counter for every page and no other key. |
| Sampler.Shares | pagerank.py:93-94 | The last loop divides every counter by `SAMPLES` and keeps the keys. |
| Sampler.SampleShares | pagerank.py:93-95 | The shares `count/SAMPLES` of a walk of `SAMPLES` draws each lie in [0, 1] and sum to 1. |
| Sampler.CountersAreTally | pagerank.py:124-139 | Counters that hold, for every page, its number of draws, with draws that are all pages of the corpus, are exactly the tally of the draws. As reals they sum to the number of draws, and none exceeds it. `SamplePagerank` applies this to the counters `get_sample` returns after starting from the zero counters of lines 88-89. |
| Sampler.SamplePagerank | pagerank.py:76-95 | `sample_pagerank` returns a map with the keys of the corpus, whatever `n` is. Each value is the page's number of draws divided by `SAMPLES`, lies in [0, 1], and the values sum to 1. |
| Solver.Predecessors | pagerank.py:164-167 | A page is a predecessor of `key` exactly when it is a page of the corpus whose links contain `key`. No predecessor has an empty link set. |
| Solver.CollectPredecessors | pagerank.py:164-167 | The inner loop of `formula` collects exactly the predecessors, in corpus order. |
| Solver.Summing | pagerank.py:142-153 | `summing` returns 0 for no predecessors. Otherwise it returns the sum, accumulated front to back, of each predecessor's rank divided by its number of links, or by `N` when it has none (lines 147-148). |
| Solver.OverwriteKeys | pagerank.py:163-169 | Overwriting entries that are already keys adds no key. |
| Solver.OverwriteValue | pagerank.py:163-169 | An entry keeps its old value before its turn. From its turn on it keeps the value computed from the map as it stood at its turn. |
| Solver.SweepKeys | pagerank.py:163-169 | A sweep, complete or partial, keeps the key set of the ranks. |
| Solver.GaussSeidel | pagerank.py:163-169 | The new rank of the `k`-th page is computed from a map in which the pages before it already hold their values for this sweep and the pages after it still hold their old ones. |
| Solver.SweepInPlace | pagerank.py:163-169 | The sweep loop of `formula`, updating in place, computes exactly `Sweep`. |
| Solver.InflowNonNegative | pagerank.py:146-153 | Ranks that are not negative pass on an inflow that is not negative. |
| Solver.RankAtLeastTeleport | pagerank.py:168 | With `0 <= d` and ranks that are not negative, a page's new rank is at least `(1-d)/N`. |
| Solver.SweepFromNonNegative | pagerank.py:163-169 | With `0 <= d <= 1`, a partial sweep from ranks that are not negative keeps every rank not negative. |
| Solver.SweepAtLeastTeleport | pagerank.py:163-169 | With `0 <= d <= 1` and ranks that are not negative, every page has at least `(1-d)/N` after a sweep, even though it read a partially updated map. |
| Solver.SweepsKeys | pagerank.py:159-174 | Any number of sweeps keeps the key set. |
| Solver.SweepsAtLeastTeleport | pagerank.py:159-174 | After at least one sweep from ranks that are not negative, every page has at least `(1-d)/N`. After any number of sweeps no rank is negative. |
| Solver.Round3 | pagerank.py:172 | `format(..., '.3f')` read back by `float`. The result is a whole number of thousandths, at most half a thousandth from the input. |
| Solver.Round3TiesToEven | pagerank.py:172 | For every input that lies exactly halfway between two thousandths, the rounded number of thousandths is even and `Round3` returns that many thousandths, as `'.3f'` formatting does: 0.0625 becomes 0.062 and 0.0635 becomes 0.064. |
| Solver.Round3Exceeds | pagerank.py:157 | A change rounded to three decimals exceeds 0.001 exactly when the change is at least 0.0015. |
| Solver.CheckOnThousandths | pagerank.py:157 | On differences that are all whole thousandths, as the `'.3f'` strings of line 172 are, `check_differences` is true exactly when some difference is at least 0.002. |
| Solver.ChangesAreThousandths | pagerank.py:171-172 | Every rounded change that `formula` stores is a whole number of thousandths, so the check on them is true exactly when some page's rounded change is at least 0.002. |
| Solver.SettledIffSmallChanges | pagerank.py:156-157 | `check_differences` on the rounded changes is false exactly when every page changed by less than 0.0015. |
| Solver.MeasureChanges | pagerank.py:171-172 | Every entry of `differences` becomes the rounded absolute change of its page between the copy and the swept ranks. No key is added or removed. |
| Solver.FormulaRound | pagerank.py:162-172 | One round of `formula` returns the swept ranks and the rounded changes against the copy taken before the sweep. |
| Solver.FormulaStep | pagerank.py:162-174 | One round of `formula`, fed the ranks and differences of the previous round as line 174 passes them on, yields the ranks after one more sweep and the differences after one more measurement, on the same keys. |
| Solver.Formula | pagerank.py:159-177 | The ranks are those after `sweeps` sweeps. Every earlier check found a change above 0.001. `settled` holds exactly when the last check finds none, which is when `formula` returns. It does not hold only when the fuel is used up. |
| Solver.UniformStart | pagerank.py:107-109 | On a nonempty corpus the starting ranks `1/N` cover every page and sum to 1. |
| Solver.Start | pagerank.py:107-113 | The first two loops of `iterate_pagerank` give every page `1/N` and every page a difference of 1000. |
| Solver.FirstCheckUnsettled | pagerank.py:111-114 | A nonempty corpus always fails the first check, because every difference starts at 1000, so at least one sweep runs. |
| Solver.NormalizedKeys | pagerank.py:116-120 | A successful final division keeps the keys. |
| Solver.NormalizedFails | pagerank.py:116-120 | The final division fails exactly when there is a page and the ranks sum to 0. |
| Solver.NormalizedRanks | pagerank.py:116-120 | When the division succeeds on a nonempty map, the total is not 0 and every rank is divided by it. |
| Solver.NormalizedSumsToOne | pagerank.py:116-120 | A successful division of a nonempty map gives ranks that sum to 1. |
| Solver.NormalizedKeepsRatios | pagerank.py:116-120 | The division keeps the ratio between any two ranks. |
| Solver.NormalizedIdempotent | pagerank.py:116-120 | Dividing ranks again after a successful division changes nothing. |
| Solver.NormalizedRanksOf | pagerank.py:116-120 | A positive total makes the division succeed, dividing every rank by the total. |
| Solver.PositiveRanksNormalize | pagerank.py:116-120 | Ranks that are all at least some positive `t` normalise to positive ranks that sum to 1. |
| Solver.Total | pagerank.py:116-118 | The summing loop computes the total of the ranks along the iteration order. |
| Solver.DivideAll | pagerank.py:119-120 | The dividing loop, working in place, divides every rank by the total. |
| Solver.Normalize | pagerank.py:116-120 | The last two loops of `iterate_pagerank` compute exactly `Normalized`, including the `ZeroDivisionError`. |
| Solver.SettledRanksArePositive | pagerank.py:107-122 | With `0 <= d < 1` and a nonempty corpus, the sweeps from `1/N` normalise successfully once at least one has run. The ranks then sum to 1 and are all positive. |
| Solver.Conclude | pagerank.py:114-122 | After `formula` settles, the result is `Normalized` of the swept ranks. It has the corpus's keys, and for `0 <= d < 1` on a nonempty corpus it succeeds, sums to 1 and is positive. |
| Solver.IteratePagerank | pagerank.py:98-122 | `iterate_pagerank` produces the normalised ranks after the first sweep count at which `check_differences` fails. Every earlier check succeeded, and at least one sweep runs on a nonempty corpus. The result has the corpus's keys. For `0 <= d < 1` on a nonempty corpus it never fails, its ranks sum to 1 and every rank is positive. |

## Left out

- `main` and the printing of results (pagerank.py:11-22), and the debug `print(dictionary)` in `get_sample` (line 126): console output.
- The directory scan, file reading and regular-expression link extraction of `crawl` (lines 34-39): file I/O and library regex. `Corpus.Cleaned` starts from the raw link sets those lines produce, keyed by the `.html` file names.
- `random.choice` and `random.choices` (lines 91, 135) are an oracle: a start page and a sequence of drawn pages.
- Sampler.Draw: the drawn page is only required to be a page of the corpus, not a page of positive probability. Every bookkeeping property therefore holds for any such choice sequence.
- Sampler.SamplePagerank: the corpus must be nonempty (`start in c`), because an empty corpus makes `random.choice` raise `IndexError` (line 91). Lookups that would raise `KeyError` in the source are preconditions.
- `sys.setrecursionlimit` (line 85): the recursion of `get_sample` is a loop.
- The building of the `keys` and `values` lists before `random.choices` (lines 130-134) is part of the oracle.
- Solver.Round3: `'.3f'` formatting rounds the binary value of a float, with exact ties going to even. The model rounds the exact real value, also with ties to even. A real such as 0.0015 has no exact float, so the source rounds a nearby binary value instead. In the model, the only tie at the threshold of `check_differences` is 0.0015. It goes to 0.002 when ties round up and when they go to even, so `Round3Exceeds` states the same threshold under both rules. Floating point is not modelled anywhere: all arithmetic is on reals.
- Solver.Formula: `formula` recurses once per sweep with no bound of its own. In CPython the recursion always ends: once the depth passes the interpreter's limit, it raises `RecursionError`. That limit is 11000 when `sample_pagerank` has run first (line 85, as in `main`), and 1000 otherwise. The model caps the number of sweeps with `fuel`, and its `OutOfFuel` outcome stands for that `RecursionError`, or for any cut-off below it. Convergence is not proved.
- Any statistical agreement between the sampler's estimate and the solver's result: probabilistic, out of reach here.
