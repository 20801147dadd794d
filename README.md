# cluBCpG complete-bin coverage, modelled in Dafny

This project models the bin-coverage step of cluBCpG: the `CalculateCompleteBins`
class in `bin/cluBCpG/CalculateBinCoverage.py`. The step counts, for every
fixed-size genomic bin, how many reads cover every CpG site of the bin. It works
in four stages:

- It takes the chromosome-length dict from the BAM header and drops the scaffolds (names that do not start with `chr`).
- It can restrict the run to one requested chromosome.
- It enumerates each chromosome's bins as ids `<chromosome>_<end>`.
- It computes a read-by-CpG matrix per bin and writes `bin,rows,cols` lines to `CompleteBins.<bam>.<chromosome>.csv`.

The per-bin step (`calculate_bin_coverage`) is a decision procedure over three
calls into the BAM parser: `parse_reads`, `create_matrix` and
`correct_cpg_positions`. It keeps only the complete rows of the matrix. When no
complete row remains, it retries once with corrected CpG positions.

Modules, one per component:

- `Wrappers`, `Errors`: `Option`/`Result`, the exception kinds, and the two ways a run can stop.
- `Seqs`: order-preserving filtering (pandas `dropna`, dict filtering) and flattening.
- `Text`: Python's `str.split`, `startswith`, `str(n)` and `int(s)`.
- `ChromosomeIndex`: the name→length dict as a sequence of entries in insertion order, plus `remove_scaffolds` and the chromosome restriction.
- `Bins`: numpy `arange`, the bin ends, and bin ids with their split.
- `Coverage`: the matrix, the parser as three functions returning a `Result`, and `BinCoverage`, the decision of `calculate_bin_coverage` as a function.
- `Scheduler`: the pool as an order-preserving map, and `final_results`.
- `ReportWriter`: the report lines and the report path.
- `CompleteBins`: the class. Its constants are the configuration. Its field `binsNoReads` is the counter that `CalculateBinCoverage` increments. Its methods are the imperative steps: the pop loop of `remove_scaffolds`, the extend loop of `generate_bins_list`, and the batch loop and write loop of `analyze_bins`.

Inside `analyze_bins`, each bin runs through `Pool.map_async` on a pickled copy of
the object. The parent object's `bins_no_reads` therefore never changes during a
run. `AnalyzeBins` reflects this: it evaluates `BinCoverage` per bin, which is the
function `CalculateBinCoverage` is proved against, and it modifies nothing.

Five facts about the code that the model keeps:

- A missing chromosome is formatted as `None` in the report name.
- `remove_scaffolds` keeps the dict's insertion order, and that order drives the report's order.
- The bare `except:` at lines 59-61 can never run, because `except BaseException` catches everything first. Any failure of `parse_reads` or `create_matrix` is counted as "no reads", and nothing is logged as an unknown error.
- A chromosome whose name contains `_` and starts with `chr` survives `remove_scaffolds`; hg38's alternate contigs, such as `chr1_KI270706v1_random`, are examples. Its bin ids then split into more than two pieces, so the worker raises ValueError and the whole run fails without writing a report.
- `dropna(how="all")` also drops rows that have no cells. The retry path applies only `dropna()`, which keeps them.

## Model

| member | source | states |
|---|---|---|
| `Text.Split` | bin/cluBCpG/CalculateBinCoverage.py:50 | `s.split(d)` gives at least one piece |
| `Text.SplitPieces` | bin/cluBCpG/CalculateBinCoverage.py:50 | no piece of `s.split(d)` contains d |
| `Text.SplitJoin` | bin/cluBCpG/CalculateBinCoverage.py:50 | `d.join(s.split(d)) == s`: splitting loses nothing |
| `Text.StartsWith` | bin/cluBCpG/CalculateBinCoverage.py:108 | `key.startswith(prefix)`: the prefix fits and the key's first characters are the prefix |
| `Text.NatToString` | bin/cluBCpG/CalculateBinCoverage.py:123 | `str(n)` is a non-empty string of decimal digits, with no leading zero when n > 0 |
| `Text.ParseInt` | bin/cluBCpG/CalculateBinCoverage.py:51 | `int(s)` yields a value only for a non-empty string, and the decimal value of an unsigned string of digits |
| `Text.ParseIntNatToString` | bin/cluBCpG/CalculateBinCoverage.py:51 | `int(str(n)) == n` for every non-negative n |
| `Bins.Arange` | bin/cluBCpG/CalculateBinCoverage.py:122 | `arange(start, stop, step)` is empty exactly when start ≥ stop, and every value lies in [start, stop) |
| `Bins.ArangeShape` | bin/cluBCpG/CalculateBinCoverage.py:122 | `arange(start, stop, step)` has ceil((stop-start)/step) values; the i-th is start + i·step; all are below stop; the last is within one step of stop |
| `Bins.BinEnds` | bin/cluBCpG/CalculateBinCoverage.py:122 | the bin ends of a chromosome of length L are empty exactly when L = 0, and each lies in [B, L+B) |
| `Bins.BinEndsShape` | bin/cluBCpG/CalculateBinCoverage.py:122 | the bin ends are B, 2B, 3B, …: exactly ceil(L/B) of them, strictly increasing, each positive and below L+B, none when L = 0, and the last is ≥ L when L > 0 |
| `Bins.BinEndsExample` | bin/cluBCpG/CalculateBinCoverage.py:122 | length 250 with bins of 100 gives the ends 100, 200, 300 |
| `Bins.BinId` | bin/cluBCpG/CalculateBinCoverage.py:123 | `"_".join([chrom, str(end)])` starts with the chromosome and `_` and ends with a non-empty run of digits |
| `Bins.SplitBinId` | bin/cluBCpG/CalculateBinCoverage.py:50-51 | the split-unpack-parse of a bin id fails only with ValueError, always when there is no `_`; on success the chromosome has no `_` and the id starts with it and `_` |
| `Bins.BinIdRoundTrip` | bin/cluBCpG/CalculateBinCoverage.py:50-51 | splitting `chrom + "_" + str(end)` and parsing the tail gives back (chrom, end) exactly when chrom has no `_`; otherwise the two-way unpack raises ValueError |
| `Bins.Extend` | bin/cluBCpG/CalculateBinCoverage.py:124 | `all_bins[key].extend(bins)` on a key that is not yet present appends the key with its list |
| `Bins.BinListsOf` | bin/cluBCpG/CalculateBinCoverage.py:120-126 | `generate_bins_list` has one key per chromosome, the same keys in the same order |
| `Bins.BinIds` | bin/cluBCpG/CalculateBinCoverage.py:122-123 | one chromosome's ids: ceil(L/B) of them, the j-th being `<chrom>_<(j+1)·B>` |
| `Bins.BinListsShape` | bin/cluBCpG/CalculateBinCoverage.py:120-126 | every chromosome gets its key, in dict order; its list has ceil(L/B) ids (none when L = 0); the j-th id is the text `<chrom>_<(j+1)·B>`; it splits back to (chrom, (j+1)·B) for a name without `_`, and the split raises ValueError for a name with `_` |
| `Bins.AllBinsCount` | bin/cluBCpG/CalculateBinCoverage.py:120-126 | all bins, in key order and then bin order, number the sum of ceil(L/B) over the chromosomes |
| `ChromosomeIndex.Lookup` | bin/cluBCpG/CalculateBinCoverage.py:150 | `d[k]` yields a value exactly when k is a key; the value is the one stored under k; `None` stands for the KeyError |
| `ChromosomeIndex.Restrict` | bin/cluBCpG/CalculateBinCoverage.py:148-151 | `None` and `""` leave the dict unchanged; a requested name gives the one-entry dict with its own length; it fails exactly when the name is not a key |
| `ChromosomeIndex.RequestedScaffoldNotFound` | bin/cluBCpG/CalculateBinCoverage.py:144-151 | requesting a name without the `chr` prefix always fails, because the lookup happens after the scaffolds are removed |
| `ChromosomeIndex.Chromosomes` | bin/cluBCpG/CalculateBinCoverage.py:106-111 | the dict `remove_scaffolds` returns: no larger than the input, and every entry is an input entry whose name starts with `chr` |
| `ChromosomeIndex.Pop` | bin/cluBCpG/CalculateBinCoverage.py:109 | `d.pop(k)` leaves exactly the entries of d not named k |
| `ChromosomeIndex.PopScaffold` | bin/cluBCpG/CalculateBinCoverage.py:107-109 | popping the scaffold at position i turns the partly filtered copy into the next one |
| `ChromosomeIndex.KeepChromosome` | bin/cluBCpG/CalculateBinCoverage.py:107-108 | an iteration on a `chr` name leaves the partly filtered copy as the next one |
| `ChromosomeIndex.ChromosomesMembers` | bin/cluBCpG/CalculateBinCoverage.py:99-111 | the kept entries are exactly the input entries whose name starts with `chr`, with their lengths unchanged |
| `ChromosomeIndex.ChromosomesAppend` | bin/cluBCpG/CalculateBinCoverage.py:106-111 | scaffold removal commutes with concatenation, so the kept chromosomes stay in their relative order |
| `ChromosomeIndex.ChromosomesIdempotent` | bin/cluBCpG/CalculateBinCoverage.py:99-111 | removing scaffolds twice gives the same dict as removing them once |
| `ChromosomeIndex.ChromosomesIsDict` | bin/cluBCpG/CalculateBinCoverage.py:106-111 | the filtered table is still a dict (no name occurs twice) |
| `Coverage.DropAllMissing` | bin/cluBCpG/CalculateBinCoverage.py:64 | `dropna(how="all")` keeps the columns and exactly the rows with at least one call |
| `Coverage.DropAnyMissing` | bin/cluBCpG/CalculateBinCoverage.py:66 | `dropna()` keeps the columns and exactly the rows without a missing cell |
| `Coverage.CompleteRowsFilter` | bin/cluBCpG/CalculateBinCoverage.py:63-66 | the two `dropna` calls in a row keep exactly the non-empty complete rows, in order |
| `Coverage.CompleteRowsShape` | bin/cluBCpG/CalculateBinCoverage.py:63-66 | the two `dropna` calls keep the column count and exactly the non-empty complete rows, in order, each as often as it occurs, so the row count is the number of reads covering every CpG |
| `Coverage.BinCoverage` | bin/cluBCpG/CalculateBinCoverage.py:38-87 | `calculate_bin_coverage` raises ValueError on an id that does not split; it returns `None` exactly on the counted no-reads branch, so the "Unknown error" branch never runs; a returned result carries its own bin id and only complete rows |
| `Coverage.CoverageAt` | bin/cluBCpG/CalculateBinCoverage.py:52-87 | for a split id, the bin is counted as having no reads exactly when `parse_reads` or `create_matrix` raised; a returned result has its bin id and only complete rows |
| `Coverage.Correction` | bin/cluBCpG/CalculateBinCoverage.py:67-87 | the retry always returns a result for its bin on one of the correction branches, or raises, which happens only when `correct_cpg_positions` raises or the rebuild raises an exception other than InvalidIndexError and ValueError; complete rows in give complete rows out |
| `Coverage.BinCoverageOfBinId` | bin/cluBCpG/CalculateBinCoverage.py:50-53 | for an id from `generate_bins_list`, `parse_reads` is called with `(chrom, end - B, end)` of its own chromosome; a chromosome name containing `_` raises ValueError outside the `try` |
| `Coverage.FetchFailureCounted` | bin/cluBCpG/CalculateBinCoverage.py:52-58 | whatever `parse_reads` or `create_matrix` raises, the result is `None` and the bin is counted as having no reads |
| `Coverage.NoCorrectionWhenRowsRemain` | bin/cluBCpG/CalculateBinCoverage.py:67-87 | when complete rows remain, the filtered matrix is returned with the column count of the built one, and replacing `correct_cpg_positions` by any function changes nothing (it is never called) |
| `Coverage.CorrectionWhenNoRows` | bin/cluBCpG/CalculateBinCoverage.py:67-70 | when no complete row remains, `correct_cpg_positions` is called on the fetched reads: its exception escapes, otherwise one of the correction branches runs |
| `Coverage.CorrectionRebuildFails` | bin/cluBCpG/CalculateBinCoverage.py:69-81 | if the rebuild raises InvalidIndexError or ValueError, the bin returns the original zero-row matrix; any other exception escapes |
| `Coverage.CorrectionRebuilt` | bin/cluBCpG/CalculateBinCoverage.py:71-86 | after a successful rebuild, the result keeps the rebuilt column count and exactly the rebuilt rows without a missing cell, in order, each as often as it occurs; SUCCESS is logged exactly when rows remain |
| `Scheduler.MapBins` | bin/cluBCpG/CalculateBinCoverage.py:160-165 | the batch gives one result per bin, in submission order, each the bin's own result; it fails exactly when some bin raised, with the exception of the first such bin |
| `Scheduler.FinalResults` | bin/cluBCpG/CalculateBinCoverage.py:157-167 | `final_results`, when no batch raises, holds one entry per bin of all the batches |
| `Scheduler.UnderscoreChromosomeFails` | bin/cluBCpG/CalculateBinCoverage.py:157-167 | if any chromosome of positive length has `_` in its name, `final_results` fails, so no report is written |
| `Scheduler.FirstChromosomeUnderscoreFails` | bin/cluBCpG/CalculateBinCoverage.py:157-167 | if the first chromosome has `_` in its name and a positive length, the run fails with ValueError |
| `Scheduler.AlternateContigExample` | bin/cluBCpG/CalculateBinCoverage.py:145-167 | the alternate contig `chr1_KI270706v1_random` of 150 bases survives scaffold removal, and the run with bins of 100 fails with ValueError |
| `Scheduler.FinalResultsStopAtFailure` | bin/cluBCpG/CalculateBinCoverage.py:158-167 | once a batch has raised, the later batches do not change the outcome |
| `Scheduler.MapBinsAppend` | bin/cluBCpG/CalculateBinCoverage.py:158-167 | mapping over two runs of bins is mapping over each, then concatenating |
| `Scheduler.FinalResultsIsMapOfAllBins` | bin/cluBCpG/CalculateBinCoverage.py:157-167 | batching by chromosome changes nothing: `final_results` is the in-order map over all bins, in key order and then bin order |
| `Scheduler.FinalResultsCoverAllBins` | bin/cluBCpG/CalculateBinCoverage.py:153-167 | `final_results` has one entry per bin (the sum of ceil(L/B)); its k-th entry is the k-th bin's result; it fails exactly when some bin raised |
| `ReportWriter.ReportLine` | bin/cluBCpG/CalculateBinCoverage.py:178-182 | a report line starts with its bin id and a comma, and splits at commas into the bin id's pieces followed by the decimal row count and column count |
| `ReportWriter.ReportLines` | bin/cluBCpG/CalculateBinCoverage.py:174-182 | the report has at most one line per result |
| `ReportWriter.ReportLinesArePresentResults` | bin/cluBCpG/CalculateBinCoverage.py:174-182 | the report has exactly one line `bin,rows,cols` per non-`None` result, in order, and none for `None` |
| `ReportWriter.ReportLinesAppend` | bin/cluBCpG/CalculateBinCoverage.py:174-182 | the lines for two result runs are the lines for each, one after the other |
| `ReportWriter.ReportLineRoundTrip` | bin/cluBCpG/CalculateBinCoverage.py:176-182 | reading a line back gives its bin id, row count and column count, when the bin id has no comma |
| `ReportWriter.WriteReport` | bin/cluBCpG/CalculateBinCoverage.py:174-182 | the write loop produces exactly the report lines of `final_results` |
| `ReportWriter.Basename` | bin/cluBCpG/CalculateBinCoverage.py:172 | `os.path.basename(p)` is the suffix of p after its last `/` and contains no `/` |
| `ReportWriter.JoinPath` | bin/cluBCpG/CalculateBinCoverage.py:172 | `os.path.join(directory, name)` always ends with the name; an absolute name is the whole result; otherwise the result starts with the directory, with a `/` before the name when the directory is not empty |
| `ReportWriter.BasenameOfJoin` | bin/cluBCpG/CalculateBinCoverage.py:172 | joining a name without `/` onto any directory gives a path whose base name is that name |
| `ReportWriter.ReportName` | bin/cluBCpG/CalculateBinCoverage.py:172 | the report name starts with `CompleteBins.` and ends with `.csv` |
| `ReportWriter.ReportPath` | bin/cluBCpG/CalculateBinCoverage.py:172 | the report path starts with the output directory and ends with `.csv` |
| `ReportWriter.ChromosomeText` | bin/cluBCpG/CalculateBinCoverage.py:172 | `"{}".format(individual_chrom)`: the requested name, or `None` when there is none |
| `ReportWriter.ReportPathShape` | bin/cluBCpG/CalculateBinCoverage.py:172 | the base name of the report path is `CompleteBins.<bam basename>.<chromosome, or None>.csv`, when the chromosome text has no `/` |
| `CompleteBins.CalculateCompleteBins.constructor` | bin/cluBCpG/CalculateBinCoverage.py:15-36 | stores the configuration and starts both counters at 0 |
| `CompleteBins.CalculateCompleteBins.CalculateBinCoverage` | bin/cluBCpG/CalculateBinCoverage.py:38-87 | returns (or raises) what `BinCoverage` gives for the bin, and adds 1 to `bins_no_reads` exactly when `parse_reads` or `create_matrix` raised |
| `CompleteBins.CalculateCompleteBins.RemoveScaffolds` | bin/cluBCpG/CalculateBinCoverage.py:98-111 | the pop loop over a copy leaves exactly the `chr` entries, unchanged and in order |
| `CompleteBins.CalculateCompleteBins.GenerateBinsList` | bin/cluBCpG/CalculateBinCoverage.py:113-126 | the extend loop gives each chromosome, in dict order, the ids of its bins |
| `CompleteBins.CalculateCompleteBins.ChromosomesToAnalyze` | bin/cluBCpG/CalculateBinCoverage.py:144-151 | the scaffold removal and the optional one-chromosome restriction are proved to give the restricted chromosome dict, or the KeyError |
| `CompleteBins.CalculateCompleteBins.CollectResults` | bin/cluBCpG/CalculateBinCoverage.py:157-167 | the batch loop is proved to give `final_results`, or the exception of the first batch that raised |
| `CompleteBins.CalculateCompleteBins.AnalyzeBins` | bin/cluBCpG/CalculateBinCoverage.py:128-185 | the run fails on a requested chromosome that is absent after filtering, or when a bin raises; otherwise it writes the report lines of `final_results` to the report path |

## Left out

- The `multiprocessing.Pool`, `map_async`, the `track_progress` polling loop (`time.sleep`, `_number_left`, `_chunksize`) and `number_of_processors`: concurrency and timing. The pool is modelled as an order-preserving map.
- Scheduler.MapBins: when several bins of one batch raise, `get()` re-raises whichever failure reached the pool first. The model reports the first one in bin order.
- The internals of `BamFileReadParser` (`parse_reads`, `create_matrix`, `correct_cpg_positions`): foreign code. They are the three function fields of `Parser`. The parser's construction (files, mapping quality 20, M-bias trimming, `no_overlap`) is folded into that value, and a failure to construct it is not modelled.
- `get_chromosome_lengths`: it reads the BAM header. The model takes the resulting dict as the constant `references`.
- Logging: the message a bin logs is represented only by its `Branch`.
- Opening and writing the file: the report is its path and its lines; the write loop adds the newline after each line. An unwritable output directory is not modelled.
- `bins_yes_reads`: set to 0 and never used, as in the source.
- `bins_no_reads` across worker processes: each worker increments its own copy and nothing sums them. The model keeps the increment in `CalculateBinCoverage` and leaves the parent's counter unchanged in `AnalyzeBins`.
- `int(bin_size)` of zero or less: the bin size is a positive integer (`Positive`); numpy's behaviour for other steps is not modelled.
- Text.ParseInt: Python's `int()` also accepts surrounding whitespace, digit-group underscores and non-ASCII digits. These are not modelled, since bin ids are produced by `str` of an integer.
- ReportWriter.ReportPathShape: states only the base name of the path. A `/` inside the requested chromosome name would put the report in a sub-directory; this is not modelled.
- The fixed 64-bit integer type of `np.arange` values: bin ends are unbounded integers.
- pandas specifics beyond "rows of calls or missing cells plus a column count".
