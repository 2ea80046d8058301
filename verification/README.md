# p_ssGSEA core, modelled in Dafny

p_ssGSEA studies master-regulator genes in a breast-cancer expression
dataset. The model covers four pieces of it.

**The derived-artifact pipeline (`cache_codec.py`).**
- Every artifact (sample profiles, gene models, gene popularity, gene sets,
  best models, simulated phenotypes, enrichment scores) is loaded through a
  `load_*` function. It returns the stored artifact if one exists. Otherwise
  it runs `dump_*`, which loads its own inputs, computes the artifact and
  writes it, and then it loads again.
- An in-process `lru_cache` sits in front of the store.
- The pure transformations inside the `dump_*` functions are modelled too:
  - the progress counter;
  - filtering gene sets to the dataset's gene vocabulary;
  - binning genes by prior and choosing the smallest Bayes errors per bin;
  - gathering expressions per gene;
  - min/max normalisation before Bayesian scoring;
  - the `scramble_sample` null transform.

**The ranking and evaluation engine (`analyze_enrichment.py`).**
- Each gene set's enrichment scores are split by simulated phenotype class.
- Gene sets are ranked by a Welch t-test. The test is a parameter returning
  `(t, p)`.
- The "linear method" gives each gene the mean 1-based position of the
  sets listing it, once sets are sorted by `(|t|, p)` descending. Genes are
  then sorted ascending by that mean, and the master gene's place is
  reported.

**The text parsers (`process_BC_data.py`).** They work over file contents
as strings:
- the tab-separated expression profiles, five fields per sample;
- the GMT gene-set catalog (name, URL, genes);
- the fifteen-column clinical table.

**The confusion-matrix tally (`model_fit.py`).** The predictions are passed
in as a sequence.

## Representation

- **Results and errors.** Python exceptions become `Outcome.Result`, whose
  error kinds are `KeyError`, `IndexError`, `ValueError`,
  `ZeroDivisionError` and `FileFormatError(message)`. A loop that can fail
  reports the first failure it meets.
- **Dicts and sets.** A dict is a sequence in key order or a `map`. A
  sample is its gene key order plus a `map` from gene to intensity. A gene
  set's genes are a sequence. Python sets become duplicate-free sequences
  in first-occurrence order.
- **Sorting.** `sorted(...)`, `sorted(..., reverse=True)` and
  `heapq.nsmallest` are stable sorts. They are modelled by one index sort
  (`Sorting.SortedIndices`) whose ties keep the original order.
- **Numbers.** Reals stand for floats. `str(n)` and `int(s)` are written
  out (`Text.ToDecimal`, `Text.ParseInt`).
- **External statistics.** The t-test, `calculate_prior`,
  `calculate_bayes_error` and `random.shuffle` are function parameters.
- **Stores.** The artifact store is a `map` threaded through the loads.

## Model

| member | source | states |
|---|---|---|
| Progress.NewCounter | cache_codec.py:22-23 | a fresh counter holds 0 |
| Progress.Count | cache_codec.py:25-27 | `count()` raises `i` by exactly one and returns the decimal text of the new value (it parses back to `i + 1`) |
| Progress.Show | cache_codec.py:29-30 | `str(counter)` parses back to the current count |
| Progress.CountsCalls | cache_codec.py:22-27 | after `n` calls on a fresh counter, it holds `n` |
| Memo.Load | cache_codec.py:95-112 | a stored key is returned from the unchanged store with no dump; a missing key runs `dump` exactly once, and the recursive call then finds the key, so recursion is one level deep and the key is present afterwards |
| Memo.LoadTwice | cache_codec.py:105-112 | a second load of the same key returns the same artifact, leaves the store alone and runs no dump |
| Memo.CachedLoad | cache_codec.py:95-112 | with `lru_cache` in front: a cached key is answered from the cache with the session unchanged; an uncached key is loaded, remembered, and agrees with the store |
| Memo.CachedLoadCoherent | cache_codec.py:95-112 | if the dump only adds entries, a cache that agrees with the store still agrees after a cached load |
| Memo.CachedLoadTwice | cache_codec.py:95-112 | a second cached load returns the same artifact and changes nothing |
| Pipeline.Deps | cache_codec.py:133-414 | each `dump_*` loads only artifacts of a strictly lower stage, so rebuilding terminates |
| Pipeline.Materialize | cache_codec.py:133-414 | a load on any store yields a store that keeps every old entry and holds the artifact and all its direct inputs; the only new entries are artifacts it is derived from |
| Pipeline.Dump | cache_codec.py:286-313 | a `dump_*` keeps every stored entry, adds the artifact and all its inputs, and adds nothing that is not upstream of it |
| Pipeline.MaterializeAll | cache_codec.py:299-301 | loading the inputs in turn keeps every stored entry, holds all of them afterwards, and adds only entries upstream of them |
| Pipeline.LoadRebuilds | cache_codec.py:404-475 | a cold `load_*` runs its dump once, and that dump rebuilds every missing input; a warm one runs nothing |
| Pipeline.UpstreamOfBelow | cache_codec.py:133-414 | nothing an artifact is derived from lies above it in the stage order |
| Data.FirstSampleGenes | cache_codec.py:302-303 | the vocabulary is exactly the first sample's gene keys; an empty sample dict raises `IndexError` |
| GeneSetFilter.FilterGenes | cache_codec.py:309 | the set comprehension: duplicate-free, holding exactly the set's genes that are valid |
| GeneSetFilter.FilterGeneSets | cache_codec.py:307-311 | every output set is the restriction of a catalog set and has between 6 and 99 valid genes; a catalog set's restriction is output iff it lies in the window; never more sets than the catalog |
| GeneSetFilter.KeepFirst | cache_codec.py:307-311 | a catalog set inside the window, put in front of the result for the rest of the catalog, keeps every promise of the filtering loop |
| GeneSetFilter.DropFirst | cache_codec.py:307-311 | a catalog set outside the window leaves the result for the rest of the catalog correct for the whole catalog |
| GeneSetFilter.FilteredGeneSets | cache_codec.py:299-311 | succeeds iff there is a sample; every output set is the restriction of a catalog set to the first sample's genes, with its name and URL, and a catalog set is kept iff its restriction has strictly between 5 and 100 genes |
| GeneSetFilter.KeptIffIntersection | cache_codec.py:309-310 | a set is kept iff its intersection with the vocabulary has more than 5 and fewer than 100 genes |
| GeneSetFilter.RestrictShape | cache_codec.py:311 | a kept set keeps its name and URL, and its genes are genes it had and valid genes |
| BestModels.BinBounds | cache_codec.py:416 | `num_bins + 1` bounds, starting at 0.1, strictly increasing, ending at 0.5 |
| BestModels.MatchSumInRange | cache_codec.py:418-419 | for a prior inside the bounds, the sum of the matching indices is the index of the unique interval holding the prior |
| BestModels.FindBin | cache_codec.py:417-419 | prior 0.5 gives `num_bins`; a prior in [0.1, 0.5) gives the `i` with `bounds[i] <= prior < bounds[i+1]`; a prior outside gives 0 |
| BestModels.Bucket | cache_codec.py:426-436 | succeeds iff every gene has a popularity entry and every eligible gene's bin exists; each bin holds exactly eligible genes falling in it, with their own Bayes errors; every eligible gene is in its bin; otherwise `KeyError` or `IndexError` naming a failing gene |
| BestModels.AddToBin | cache_codec.py:434-436 | one `bins[bin][gene] = error` step for a new eligible gene keeps every bin duplicate-free, sound and complete |
| BestModels.NSmallest | cache_codec.py:444 | at most `genes_per_bin` distinct genes of the bin; every kept gene has a smaller Bayes error than every gene left out, or an equal one and an earlier position |
| BestModels.Collect | cache_codec.py:442-446 | the best models are exactly the kept genes, each mapped to its own `gene_models` entry |
| BestModels.Choose | cache_codec.py:442-446 | over filled bins: one `nsmallest` list per bin, and the best models are exactly the kept genes with their own models |
| BestModels.SelectWith | cache_codec.py:413-446 | the whole selection for a given bin count: the success and error conditions of the bucket loop, sound and complete bins, the `nsmallest` of each bin, and the best models as their union |
| BestModels.SelectBestModels | cache_codec.py:416-446 | as written, with `num_bins` bins: for `num_bins > 0`, it succeeds iff every gene has a popularity entry and no eligible gene has prior exactly 0.5 |
| BestModels.HalfPriorOverflows | cache_codec.py:417-436 | one eligible gene with prior 0.5 makes the selection raise `IndexError` |
| BestModels.SelectBestModelsCorrected | cache_codec.py:416-446 | with one bin added for prior 0.5, it succeeds iff every gene has a popularity entry |
| BestModels.HalfPriorKeptWhenCorrected | cache_codec.py:417-446 | after the correction, the prior-0.5 gene is placed in the extra bin and selected |
| BestModels.CorrectedPlacesEveryEligibleGene | cache_codec.py:426-436 | after the correction, every eligible gene lands in its bin, with prior 0.5 in the last one |
| Expressions.Holders | cache_codec.py:142-146 | the positions of the samples that have the gene, ascending, and all of them |
| Expressions.GatherExpressions | cache_codec.py:136-146 | succeeds iff there is a sample (otherwise `IndexError`); the keys are exactly the first sample's genes; each gene's list holds the intensities of the samples that have it, one per sample, in sample order |
| Expressions.RaiseMax | cache_codec.py:654-657 | one sample's step: the maximum covers the old maximum and the sample's intensities, and each value comes from one of them |
| Expressions.LowerMin | cache_codec.py:659-662 | one sample's step: the minimum starts at 0, never rises, lies at or below the sample's intensities, and is 0 or an observed intensity |
| Expressions.BoundsStep | cache_codec.py:649-662 | one sample's step keeps the loop invariant: keys are the genes seen so far, and each gene is bounded by its maximum and its non-positive minimum |
| Expressions.ExpressionBounds | cache_codec.py:646-662 | the maximum and minimum dicts are keyed by every gene of any sample; each intensity lies between its gene's minimum and maximum; every minimum is at most 0; each maximum is an observed intensity, and each minimum is 0 or one |
| Expressions.Normalize | cache_codec.py:680 | raises `ZeroDivisionError` iff max equals min; otherwise the value lies in [0, 1] for intensities within the bounds and maps back to the intensity |
| Expressions.Members | cache_codec.py:676-677 | exactly the sample's genes that are in the gene set, picked in profile order (a strictly increasing choice of positions), each once when the profile lists each gene once |
| Expressions.NormalizeGenes | cache_codec.py:676-680 | succeeds iff every listed gene has both bounds and a non-empty range, then one normalised value per gene; otherwise fails at the first gene that does not, with `KeyError` for a missing bound and `ZeroDivisionError` for an empty range |
| Expressions.SetExpressionsInUnitInterval | cache_codec.py:646-680 | with the bounds of the first loop, every value handed to the scoring model lies in [0, 1] |
| Expressions.EmptyRange | cache_codec.py:646-680 | a gene's range is empty only when every sample has the same intensity for it, at most 0 |
| Scramble.ScrambleSample | cache_codec.py:761-768 | the sample keeps its genes and their order, and its multiset of intensities: intensities are only permuted |
| Scramble.ScrambleAll | cache_codec.py:757-768 | every sample, in order, keeps its number, genes and multiset of intensities |
| Scramble.Reassign | cache_codec.py:767-768 | each gene, in key order, takes the value `pop()` removes from the end of the shuffled list: the k-th gene gets the k-th value from the end, and the genes are exactly the profile's |
| Scramble.NullRunAsWritten | cache_codec.py:640-644 | as written, the null branch leaves the store alone and makes the cache entry for the dataset the very profiles it scores |
| Scramble.NullRun | cache_codec.py:640-644 | scrambling a copy scores profiles with the same genes and intensity multisets, and leaves cache and store unchanged |
| Scramble.NullRunAsWrittenBreaksCoherence | cache_codec.py:640-644 | as written, the null branch scrambles the cached sample dict in place, so the cache stops agreeing with the store |
| Scramble.NullRunKeepsCoherence | cache_codec.py:640-644 | scrambling a copy keeps the cache coherent |
| Ranking.Partition | analyze_enrichment.py:28-37 | fails with `KeyError` iff some phenotype id has no score; otherwise every id lands in exactly one class, so the class sizes sum to the phenotype's size, and together the classes are the multiset of the ids' scores |
| Ranking.PartitionMatchesClasses | analyze_enrichment.py:31-35 | class 0 is the scores of the ids labelled 0, and class 1 the scores of all other ids, each in phenotype order |
| Ranking.Lookup | analyze_enrichment.py:25 | `enrichment_scores[gene_set]`: `KeyError` iff the set is unknown |
| Ranking.ScoreDistribution | analyze_enrichment.py:8-37 | `KeyError` iff the set is unknown or some phenotype id has no score; otherwise the two class lists |
| Ranking.RankTrial | analyze_enrichment.py:63-71 | one entry per gene set, in key order, holding `abs(t)` (so at least 0) and `p` of the t-test on that set's two classes; `KeyError` iff some set misses a phenotype id |
| Ranking.RankByTTest | analyze_enrichment.py:57-75 | one ranking per trial, in trial order, each over every gene set, with the t-test entry of that trial's classes |
| Ranking.RankByTTestKeyed | analyze_enrichment.py:77-82 | a single-key map from the master gene to the unwrapped rankings |
| Sorting.SortedIndices | analyze_enrichment.py:108 | a stable ascending sort: a permutation of the positions with no position before a smaller key, and ties in original order |
| Evaluation.DescendingKeys | analyze_enrichment.py:108 | sorting ascending by the derived keys is sorting descending by the whole `(abs(t), p)` tuple |
| Evaluation.SetOrder | analyze_enrichment.py:108 | the set order is a permutation of the ranking, descending by `(abs(t), p)`, with equal tuples in ranking order |
| Evaluation.SortedSets | analyze_enrichment.py:108 | the sorted set names are exactly the ranked names |
| Evaluation.Occurrences | analyze_enrichment.py:116-127 | `KeyError` iff a ranked set is unknown; each visit pairs a gene with the 1-based position of a set listing it |
| Evaluation.OccurrencePositions | analyze_enrichment.py:116-127 | the positions visited for a gene are exactly its sets' positions in ranked order, once per listing |
| Evaluation.Accumulate | analyze_enrichment.py:122-127 | after the loop, each gene's running score is the sum of its positions and its set count is their number |
| Evaluation.LinearMethod | analyze_enrichment.py:106-133 | `KeyError` iff a ranked set is unknown; exactly the genes of the ranked sets are scored, each with the mean of the positions of the sets listing it, which lies between 1 and the number of ranked sets |
| Evaluation.GeneOrder | analyze_enrichment.py:138 | a permutation of the scored genes' positions, ascending by score, equal scores in first-visit order (Python's stable sort) |
| Evaluation.RankGenes | analyze_enrichment.py:138 | the scored genes ascending by score, each exactly once |
| Evaluation.MasterRanks | analyze_enrichment.py:141-145 | the master gene's 1-based places in the sorted genes: one place iff the master is scored, none otherwise |
| Evaluation.EvaluateTrial | analyze_enrichment.py:136-145 | a trial gives one entry iff the master gene appears in a ranked set, and that entry lies between 1 and the number of scored genes |
| Evaluation.EvaluateRankings | analyze_enrichment.py:135-147 | `KeyError` iff some ranking names an unknown set; otherwise one entry per trial whose sets list the master gene, in trial order, each equal to that trial's own `EvaluateTrial` place |
| Evaluation.PlacesInRange | analyze_enrichment.py:135-147 | when `evaluate_rankings` succeeds, every place it returns comes from a trial listing the master gene and lies between 1 and the number of genes that trial scores |
| Evaluation.EvaluateRankingsKeyed | analyze_enrichment.py:149-154 | a single-key map from the master gene to the unwrapped result |
| Evaluation.MasterPlace | analyze_enrichment.py:135-145 | the master's place lies above the number of genes scoring strictly less, and at most the number scoring less or equal |
| Evaluation.SortedPlace | analyze_enrichment.py:138-145 | the place bound, for any scored gene order |
| Evaluation.OneTrial | analyze_enrichment.py:135-147 | on one ranking, the evaluation is that trial's entry |
| Evaluation.ScenarioScores | analyze_enrichment.py:106-133 | sets S1 (A, B; t 3) and S2 (B, C; t 1) score A 1, B 1.5 and C 2 |
| Evaluation.ScenarioPlace | analyze_enrichment.py:106-147 | in that scenario the master gene C is placed third |
| Text.SplitJoin | process_BC_data.py:127 | splitting a joined line gives back its separator-free pieces |
| Text.DecimalRoundTrip | process_BC_data.py:137 | `int()` reads back the decimal text of every natural number |
| Text.Split | process_BC_data.py:127 | `str.split` with one separator: separator-free pieces that join back to the string, one piece iff the separator does not occur |
| Text.ToDecimal | cache_codec.py:27 | `str(n)`: decimal digits whose base-10 value is `n`, with a leading `0` only for 0 |
| Text.ParseInt | process_BC_data.py:137 | `int()` fails only with `ValueError`; a plain digit string reads as its base-10 value; a blank string fails |
| Text.ParseIntIgnoresSpace | process_BC_data.py:137 | `int()` ignores whitespace added at either end |
| Text.NegativeRoundTrip | process_BC_data.py:137 | `int()` reads `-` followed by the decimal text of `n` as `-n` |
| Parsers.UntilEmpty | process_BC_data.py:146-151 | the rows before the first empty one, all non-empty |
| Parsers.GeneSetRow | process_BC_data.py:252-260 | a row succeeds iff it holds a tab (otherwise `IndexError` at `set_info[1]`); name, URL and genes joined by tabs give back the row |
| Parsers.GeneSetData | process_BC_data.py:246-262 | one gene set per row before the first empty row, each made of that row's fields; `IndexError` iff such a row has no tab |
| Parsers.GmtRoundTrip | process_BC_data.py:242-262 | reading a written GMT catalog gives back its gene sets |
| Parsers.ClinicalRow | process_BC_data.py:212-233 | a row succeeds iff it has at least 15 fields (otherwise `IndexError`); the record's columns are its first 15 fields in order |
| Parsers.ClinicalBody | process_BC_data.py:211 | rows 1 to `len(rows) - 2`: the first and the last row are skipped |
| Parsers.ClinicalData | process_BC_data.py:207-236 | text without a newline gives no records; otherwise one record per row between the first and the last, each read positionally |
| Parsers.ClinicalRoundTrip | process_BC_data.py:203-236 | reading a written clinical table gives back its records |
| Parsers.ClinicalDropsUnterminatedRow | process_BC_data.py:210-211 | a final record without a trailing newline is the skipped last row |
| Parsers.NonEmpty | process_BC_data.py:134 | exactly the non-empty header fields, picked in header order (a strictly increasing choice of positions) |
| Parsers.SampleId | process_BC_data.py:135-139 | `FileFormatError` iff the field lacks "Sample"; otherwise `IndexError` iff there is no space, and with a space the result is `int()` of the second space-separated word |
| Parsers.HeaderIds | process_BC_data.py:133-139 | the header reads iff every non-empty tab-separated field is a sample label; then one number per such field in header order, else the error of one of those fields |
| Parsers.SampleIds | process_BC_data.py:132-139 | the ids of all fields in header order, or the first field's error |
| Outcome.MapAll | process_BC_data.py:246-262 | a loop that appends one result per element and lets the first exception escape: all results in order iff every element succeeds, otherwise the first failing element's error |
| Parsers.RowProfiles | process_BC_data.py:154-178 | a row succeeds iff it has `2 + 5 * len(IDs)` fields (otherwise `IndexError`); one profile per id, in id order, with that id, `fields[0]` as substance and `fields[1]` as gene |
| Parsers.DataProfiles | process_BC_data.py:146-178 | succeeds iff every data row is long enough; rows times ids profiles |
| Parsers.ReadExpressionProfile | process_BC_data.py:123-181 | `FileFormatError("Labels in top two rows missing")` iff the text has no newline; otherwise the header ids parse and the output has (data rows before the first empty one, from row 2) times ids profiles |
| Parsers.RowRoundTrip | process_BC_data.py:154-178 | reading a written data row gives sample `f` the five fields `2 + 5f` to `2 + 5f + 4` as log ratio, log error, p-value, intensity and flag |
| Parsers.ExpressionRoundTrip | process_BC_data.py:123-181 | reading a written expression file gives back every profile, row by row and sample by sample |
| Parsers.HeaderDropsEmptyFields | process_BC_data.py:133-134 | empty header fields are ignored |
| Parsers.HeaderNeedsSample | process_BC_data.py:136-139 | a header field without "Sample" raises the sample-label `FileFormatError` |
| Parsers.HeaderNeedsSecondWord | process_BC_data.py:137 | "Sample" with no space raises `IndexError` |
| Parsers.HeaderNeedsInteger | process_BC_data.py:137 | "Sample" followed by a non-number raises `ValueError` |
| Confusion.Tally | model_fit.py:64-72 | `IndexError` iff some 0/1 label has no prediction at its position; otherwise tp, fp, tn and fn count the (1,1), (0,1), (0,0) and (1,0) pairs |
| Confusion.CellCountsPositions | model_fit.py:64-72 | each cell is the number of positions holding its (label, prediction) pair |
| Confusion.CellsCountLabelled | model_fit.py:64-72 | the four cells together count exactly the positions where label and prediction are both 0 or 1; any other pair falls in no cell |
| Confusion.TallyCoversAll | model_fit.py:64-72 | when all labels and predictions are 0 or 1, `tp + fp + tn + fn == len(Y)` |
| Confusion.OtherLabelSkipped | model_fit.py:64-72 | a label 2 reads no prediction and counts nowhere |

## Left out

- **I/O and storage.** Pickle files, sqlite, `os.path.exists`,
  `os.makedirs`, `glob`, `open` and all `print` output are left out. The
  store is a `map` from artifact to value. Reading a file is reading its
  contents as a string. `getExpressionProfiles` only concatenates
  `readExpressionProfile` over a directory listing.
- **`lru_cache` eviction.** Each decorated `load_*` function has its own
  cache of at most 16 entries in the source. The model is plain
  memoisation with no eviction. An eviction only forces a later reload
  from the store.
- **Encoding.** The files are decoded as UTF-7. The model starts from the
  decoded string.
- **Python's `int()`.** The model strips the surrounding whitespace
  `str.isspace` accepts (ASCII and Unicode), then takes one sign and
  ASCII digits. Underscores and non-ASCII digits are not modelled.
- **External numerics.** These are left out, or passed in as uninterpreted
  function parameters:
  - GMM fitting (`get_trained_models`, `fit_test_model`, `gauss_model.predict`);
  - `ttest_ind`;
  - `calculate_prior` and `calculate_bayes_error`;
  - `pmodel`, `calculate_enrichment_score` and `simulate_data`.
- **Floating point.** Priors, bounds, errors and means are exact reals. NaN
  and rounding at the bin boundary 0.5 are outside the model.
- **Randomness.**
  - `random.shuffle` in `scramble_sample` is a parameter: any reordering of
    the intensities.
  - `random.random()` in `dump_null_scores` produces values the model does
    not constrain, so that dump's body is left out. Its loads and its null
    branch are modelled through `Pipeline` and `Scramble`.
- **Dump bodies built on external calls.** `dump_sample_profiles`,
  `dump_gene_popularity`, `dump_sim_phenotypes`, `dump_ssGSEA_scores` and
  the scoring part of `dump_bayes_scores` are left out. Their result is
  an external computation. Only their place in the load protocol is
  modelled.
- **`load_sim_phenotype_keyed`.** It wraps `load_sim_phenotypes` in a
  single-key dict, the same shape as `Ranking.RankByTTestKeyed`. Its value
  comes from the external simulation.
- **Out of scope.**
  - `filter_sample_profile_to_gene` reads a fixed pickle and ignores its
    argument.
  - Also omitted: `dump_trained_models`, plotting, and the `__main__` blocks.
- Evaluation.SortedSets: its own contract states only that it reorders the
  names. The descending, stable order is stated on `Evaluation.SetOrder`,
  which it applies.
- Pipeline.Materialize: every `dump_*` is modelled as first loading its
  inputs and then writing exactly one artifact. Re-entrant or failing dumps
  are not modelled.
- BestModels.SelectBestModels: the model takes `num_bins` as a natural
  number. A negative `num_bins` (an empty `range`) is not modelled.

## Findings

| source | as written | input that shows it | evidently intended | confidence | as-written member | corrected member |
|---|---|---|---|---|---|---|
| cache_codec.py:417-436 | `find_bin` returns `num_bins` for prior 0.5, but `bins` has only `num_bins` entries, so `bins[bin]` raises `IndexError` | one gene with popularity 3 and prior 0.5, `num_bins = 4` | a gene with prior exactly 0.5 gets a bin (here an extra last bin) instead of aborting the dump | not executed | BestModels.HalfPriorOverflows | BestModels.HalfPriorKeptWhenCorrected |
| cache_codec.py:640-644 | the `null` branch calls `scramble_sample` on the dict returned by the memoised `load_sample_profiles`, rewriting the cached profiles in place | one sample with genes a (1.0) and b (2.0), shuffle [1.0, 2.0]: afterwards the cache holds a = 2.0 while the store holds a = 1.0 | the scramble applies to a copy, so later loads in the same process see the stored profiles | not executed | Scramble.NullRunAsWrittenBreaksCoherence | Scramble.NullRunKeepsCoherence |
