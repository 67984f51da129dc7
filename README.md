# DepMap gene-hit resolution, modelled in Dafny

This project models the gene-hit pipeline of `DepmapGeneData` in `src/depmap/depmap_read.py`. A screen is a list of gene symbols. For each gene of the screen, the pipeline fetches that gene's DepMap coessentiality table, which has a `Gene` column and a `Correlation` column. It reports which of the *other* screen genes appear in the table, optionally only those whose correlation beats a threshold. The per-gene records are gathered into an insertion-ordered dictionary keyed by the screen's genes, which is then written out as CSV.

The project has five modules:

- `Wrappers` defines `Option` and `Result`.
- `Failures` defines the exceptions the code can raise, as values.
- `SeqUtil` holds sequence notions used by the contracts:
  - `NoDup` (no repeated element);
  - `Subseq` (order-preserving subsequence);
  - `FirstIndex` (first position of an element);
  - `Dedup` (distinct elements in first-occurrence order).
- `GeneHits` models `find_gene_hits`:
  - The correlation table is a `Frame` of `Row`s, with flags for whether each column exists.
  - The function is written the way pandas computes it: an `isin` mask, an optional `> threshold` mask combined with `&`, then a `.loc` selection of the `Gene` column.
  - It is proved equal to a row-by-row reference filter, `Kept`.
  - The properties are proved about `Kept`:
    - membership;
    - the result keeps the table's row order;
    - repeated rows are counted;
    - a stricter threshold or a smaller gene list yields a subsequence;
    - only the set of listed genes matters.
- `Resolver` models `get_depmap_gene_data` up to the point where the dictionary is written:
  - `WorkingSet` models slicing the screen, with Python's slice semantics, including a negative limit.
  - `Remaining` models the "other genes" of a position.
  - `ProcessGene` models `process_gene`.
  - `OrderedDict` is a class whose `keys` and `entries` its methods update in place.
  - `CollectResults` is the collection loop. It runs over an arbitrary completion order of the tasks, which stands in for `as_completed`.
  - `GetDepmapGeneData` is the whole call.
  - The predicate `IsExpected` characterises the successful result:
    - keys are the distinct working-set genes in first-occurrence order;
    - under each key is the record of that gene's task.
  - `ExpectedIsUnique` shows that at most one result satisfies `IsExpected`, so the result never depends on the completion order.

Three behaviours of the code are easy to misread:

- **Fetch failures.** A failing fetch is not caught per gene. `future.result()` (line 60) re-raises the exception, and lines 71-73 re-raise it to the caller. The model makes the first failing task in completion order abort the call (`FetchFailureIsFatal`, `GetDepmapGeneData`).
- **Worker count.** `min(1, num_workers)` caps the pool at one worker, and `ThreadPoolExecutor` raises `ValueError` for any value ≤ 0. The model returns `Err(NoWorkers)`.
- **Self-hits.** A gene is never among its own hits only when the screen has no repeated gene (`NoSelfHit`). With a repeated gene, the other copy is among the "other genes", and a table listing the gene itself reports it as a hit (`SelfHitWithDuplicates`).

The code also raises in two cases that the model represents as error values:

- Calling with `genes=None` (the default) fails at the slice with a `TypeError`. The model returns `Err(GenesNotSubscriptable)`.
- A table without a `Gene` column, or without a `Correlation` column when a threshold is given, raises a `KeyError`. The model returns `Err(MissingColumn(...))`.

## Model

| member | source | states |
|---|---|---|
| SeqUtil.Dedup | src/depmap/depmap_read.py:43 | the keys an `OrderedDict` built from a sequence holds: no repeats, every element of the sequence and nothing else, at most as many as the sequence |
| SeqUtil.DedupFirstOccurrenceOrder | src/depmap/depmap_read.py:43 | those keys are ordered by the position of each gene's first occurrence in the sequence |
| SeqUtil.DedupOfNoDup | src/depmap/depmap_read.py:43 | for a sequence without repeats, the keys are the sequence itself |
| GeneHits.Kept | src/depmap/depmap_read.py:95-102 | reference filter for the hit list: never longer than the table |
| GeneHits.FindGeneHits | src/depmap/depmap_read.py:75-104 | succeeds exactly when the `Gene` column exists and, if a threshold is given, the `Correlation` column too; otherwise reports the missing column (`Gene` first); on success the hits are the reference filter `Kept` of the table's rows |
| GeneHits.MaskSelectsKept | src/depmap/depmap_read.py:95-102 | selecting the `Gene` column through the `isin` mask, `&`-ed with the `> threshold` mask when a threshold is given, equals the row-by-row filter `Kept` |
| GeneHits.KeptMembership | src/depmap/depmap_read.py:95-99 | a gene is a hit exactly when some row names it, the gene is in the list, and (with a threshold) that row's correlation is strictly greater than the threshold |
| GeneHits.KeptInRowOrder | src/depmap/depmap_read.py:95-102 | the hits are a subsequence of the table's `Gene` column, in the table's row order and not the list's order |
| GeneHits.KeptCountsWithoutThreshold | src/depmap/depmap_read.py:95-102 | without a threshold, every row whose gene is listed appears, repeated rows included: a listed gene occurs among the hits as often as in the `Gene` column, and an unlisted one never |
| GeneHits.KeptMonotone | src/depmap/depmap_read.py:97-99 | a stricter threshold (or adding one) and a smaller gene list give a subsequence of the hits |
| GeneHits.KeptDependsOnMembersOnly | src/depmap/depmap_read.py:95 | `isin` uses only membership: two lists with the same members give the same hits |
| GeneHits.ExampleTableOfA | src/depmap/depmap_read.py:95-104 | table (B 0.9, C 0.2, X 0.95) with list (B, C) gives hits [B] at threshold 0.5 and [B, C] without a threshold |
| Resolver.SliceStop | src/depmap/depmap_read.py:41 | the stop index of a Python slice `[:stop]` never exceeds the length |
| Resolver.WorkingSet | src/depmap/depmap_read.py:41 | the working set is a prefix of the screen, order kept: `min(len, n)` genes for `n >= 0`, and `max(0, len + n)` genes for a negative `n` |
| Resolver.Remaining | src/depmap/depmap_read.py:51 | the other genes of position `i` are the working set with exactly position `i` removed: one shorter, order kept |
| Resolver.RemainingMembers | src/depmap/depmap_read.py:51 | a gene is among the others of position `i` exactly when it stands at some other position |
| Resolver.RemainingAgreeOnDuplicates | src/depmap/depmap_read.py:51 | two positions holding the same gene have the same other genes, as a set |
| Resolver.ProcessGene | src/depmap/depmap_read.py:45-54 | a task's record names its own gene; a raising fetch fails the task; no table gives an empty hit list; a fetched table fails the task exactly when a needed column is missing |
| Resolver.ProcessGeneHits | src/depmap/depmap_read.py:51-53 | a fetched table's hits are its rows that name another working-set gene and pass the threshold, in row order |
| Resolver.ProcessGeneAgreesOnDuplicates | src/depmap/depmap_read.py:45-54 | two tasks for the same gene, at different positions, have the same outcome (given one fetch outcome per gene) |
| Resolver.NoSelfHit | src/depmap/depmap_read.py:51-53 | with no repeated gene, a gene is never among its own hits, and every hit is another gene of the working set |
| Resolver.SelfHitWithDuplicates | src/depmap/depmap_read.py:51-53 | with the screen (A, A) and a table for A that lists A, A's record lists A as its own hit |
| Resolver.FetchFailureIsFatal | src/depmap/depmap_read.py:60 | one gene whose fetch raises means the tasks do not all succeed, so no result is returned |
| Resolver.ExpectedIsUnique | src/depmap/depmap_read.py:59-61 | at most one dictionary is the expected result, so the output cannot depend on completion order |
| Resolver.ExpectedRecordsNameTheirKey | src/depmap/depmap_read.py:54-61 | in the result, every key holds a record, and the record's `gene` field is its key |
| Resolver.RowsFollowScreenOrder | src/depmap/depmap_read.py:67 | the written rows are one per distinct working-set gene, row `j` being the record of the `j`-th distinct gene, ordered by first occurrence in the screen |
| Resolver.RowsOfDistinctScreen | src/depmap/depmap_read.py:67 | with no repeated gene, there is exactly one written row per working-set gene, in screen order, each the record of that gene's task |
| Resolver.ProcessGeneThresholdMonotone | src/depmap/depmap_read.py:97-99 | for one task, a stricter threshold yields a subsequence of its hits |
| Resolver.ResultSetSize | src/depmap/depmap_read.py:41-43 | with no repeated gene in the working set and a limit `n >= 0`, the dictionary has `min(len(genes), n)` keys |
| Resolver.ExampleTaskA | src/depmap/depmap_read.py:45-54 | screen (A, B, C) at threshold 0.5: A's record lists [B] |
| Resolver.ExampleTaskB | src/depmap/depmap_read.py:45-54 | B's record lists [A] |
| Resolver.ExampleTaskC | src/depmap/depmap_read.py:47-49 | C has no table, so its record lists nothing |
| Resolver.ExampleSucceeds | src/depmap/depmap_read.py:45-61 | every task of the example succeeds |
| Resolver.ExampleScreenIsDistinct | src/depmap/depmap_read.py:41 | the example screen has no repeated gene |
| Resolver.ExampleScreen | src/depmap/depmap_read.py:59-67 | the example's written rows are A: [B], B: [A], C: [] in screen order |
| Resolver.OrderedDict.FromKeys | src/depmap/depmap_read.py:43 | the dictionary built from the working set has the distinct genes as keys in first-occurrence order, each mapped to None |
| Resolver.OrderedDict.Set | src/depmap/depmap_read.py:61 | assignment overwrites the value of an existing key without moving it, or appends a new key; the keys stay distinct and match the map's domain |
| Resolver.CollectedIsExpected | src/depmap/depmap_read.py:59-61 | once every task in completion order has stored its record, the dictionary is the expected one |
| Resolver.StoreNext | src/depmap/depmap_read.py:61 | storing the next task's record keeps every earlier record, since a repeated gene overwrites with an equal record |
| Resolver.CollectResults | src/depmap/depmap_read.py:59-61 | the loop never changes the keys; it either stops with the first failure in completion order, or stores every task's record |
| Resolver.GetDepmapGeneData | src/depmap/depmap_read.py:40-73 | `genes=None` fails, and a non-positive worker count fails; otherwise the call succeeds exactly when every task succeeds, then returns the expected dictionary; when it fails, the error is that of the first failed task in completion order |

## Left out

- HTTP retrieval and CSV parsing of a gene's table (lines 125-136) are a parameter `fetch: Gene -> FetchResult`. A raised exception is the value `Raised`, and a `None` table is `NoData`.
- The `lru_cache` memoisation (line 106) is not modelled. The fetch is a Dafny function, so the model fixes one outcome per gene, and every task for that gene sees it.
- The model therefore misses re-fetches. The cache stores only returned tables, not raised exceptions (lines 134-136), and it evicts entries beyond 256. So when a gene is repeated in the screen and one of its fetches raised, or its entry was evicted, its other task fetches again and may get a different outcome. `ProcessGeneAgreesOnDuplicates` and `StoreNext` depend on the one-outcome-per-gene assumption. In the code, such a call still fails when any fetch raises; only which error is reported can differ.
- The thread pool is not modelled as concurrency. Tasks are evaluated in the arbitrary order `completion`, a permutation that stands in for `as_completed`. The only effect modelled of `min(1, num_workers)` is its failure for values ≤ 0; the effective pool size of one worker has no other observable effect on the result.
- Resolver.GetDepmapGeneData: returns the final dictionary instead of the CSV file name. Creating the output directory, the timestamped file name and writing the CSV (lines 63-70) are file-system and clock I/O. The written rows are modelled by `Rows`.
- Every exception is one `Failure` value. The exception's message and the `print` diagnostics (lines 48, 72, 135) are not modelled.
- Correlation scores are `real`. They are only compared with the threshold, so floating-point rounding plays no part, and NaN scores are not modelled.
- The table's columns other than `Gene` and `Correlation` are not modelled, because the code reads neither.
- `src/run.py` (command-line parsing and loading the screen from a file) is not part of this model.
