/** The `CalculateCompleteBins` object: its configuration, the `bins_no_reads`
    counter, and the steps of `analyze_bins`. */
module CompleteBins {
  import opened Wrappers
  import opened Errors
  import opened Seqs
  import opened Text
  import opened ChromosomeIndex
  import opened Bins
  import opened Coverage
  import opened Scheduler
  import opened ReportWriter

  class CalculateCompleteBins<R> {
    const bamFile: string
    const binSize: Positive
    const outputDirectory: string
    /** The name-to-length dict of the BAM header (`get_chromosome_lengths`). */
    const references: Dict
    /** The BAM-file parser built from the BAM and FASTA files, the mapping
        quality threshold, the four M-bias trimming values and `no_overlap`. */
    const parser: Parser<R>
    var binsNoReads: nat
    var binsYesReads: nat

    constructor(bamFile: string, binSize: Positive, outputDirectory: string, references: Dict, parser: Parser<R>)
      ensures this.bamFile == bamFile && this.binSize == binSize && this.outputDirectory == outputDirectory
      ensures this.references == references && this.parser == parser
      ensures binsNoReads == 0 && binsYesReads == 0
    {
      this.bamFile := bamFile;
      this.binSize := binSize;
      this.outputDirectory := outputDirectory;
      this.references := references;
      this.parser := parser;
      binsNoReads := 0;
      binsYesReads := 0;
    }

    /** `calculate_bin_coverage(bin)`: returns what BinCoverage says the bin
        returns (or raises), and counts the bin as one without reads exactly
        when parse_reads or create_matrix raised. */
    method CalculateBinCoverage(bin: string) returns (r: Result<BinResult, Exception>)
      modifies this`binsNoReads
      ensures r == BinCoverage(parser, binSize, bin).ToResult()
      ensures binsNoReads == old(binsNoReads) + if BinCoverage(parser, binSize, bin).CountsNoReads() then 1 else 0
    {
      var location := SplitBinId(bin);
      if location.Failure? {
        return Failure(location.error);
      }
      var (chromosome, binLocation) := location.value;
      var fetched := parser.parseReads(chromosome, binLocation - binSize, binLocation);
      if fetched.Failure? {
        binsNoReads := binsNoReads + 1;
        return Success(None);
      }
      var created := parser.createMatrix(fetched.value);
      if created.Failure? {
        binsNoReads := binsNoReads + 1;
        return Success(None);
      }
      var matrix := DropAllMissing(created.value);
      matrix := DropAnyMissing(matrix);
      if |matrix.rows| == 0 {
        var originalMatrix := matrix;
        var corrected := parser.correctCpgPositions(fetched.value);
        if corrected.Failure? {
          return Failure(corrected.error);
        }
        var rebuilt := parser.createMatrix(corrected.value);
        if rebuilt.Failure? {
          match rebuilt.error
          case InvalidIndexError =>
            return Success(Some((bin, originalMatrix)));
          case ValueError =>
          case OtherException =>
            return Failure(OtherException);
        } else {
          matrix := rebuilt.value;
        }
        matrix := DropAnyMissing(matrix);
      }
      return Success(Some((bin, matrix)));
    }

    /** `remove_scaffolds`: pops every name that does not start with "chr"
        from a copy of the dict, leaving the chromosomes in their order. */
    static method RemoveScaffolds(chromosomeLenDict: Dict) returns (newDict: Dict)
      ensures newDict == Chromosomes(chromosomeLenDict)
      ensures forall i :: 0 <= i < |newDict| ==> newDict[i] in chromosomeLenDict && StartsWith(newDict[i].0, "chr")
      ensures forall i :: 0 <= i < |chromosomeLenDict| && StartsWith(chromosomeLenDict[i].0, "chr") ==>
        chromosomeLenDict[i] in newDict
    {
      ChromosomesIsDict(chromosomeLenDict);
      var copy: Table := chromosomeLenDict;
      for i := 0 to |chromosomeLenDict|
        invariant copy == Chromosomes(chromosomeLenDict[..i]) + chromosomeLenDict[i..]
      {
        var key := chromosomeLenDict[i].0;
        if !StartsWith(key, "chr") {
          PopScaffold(chromosomeLenDict, i);
          copy := Pop(copy, key);
        } else {
          KeepChromosome(chromosomeLenDict, i);
        }
      }
      assert chromosomeLenDict[..|chromosomeLenDict|] == chromosomeLenDict;
      assert chromosomeLenDict[|chromosomeLenDict|..] == [];
      assert copy == Chromosomes(chromosomeLenDict);
      newDict := copy;
      ChromosomesMembers(chromosomeLenDict);
    }

    /** `generate_bins_list`: one key per chromosome of the dict, in its order,
        extended with the ids of that chromosome's bins. */
    method GenerateBinsList(chromosomeLenDict: Dict) returns (allBins: BinLists)
      ensures allBins == BinListsOf(chromosomeLenDict, binSize)
    {
      allBins := [];
      for i := 0 to |chromosomeLenDict|
        invariant allBins == BinListsOf(chromosomeLenDict[..i], binSize)
      {
        var (key, value) := chromosomeLenDict[i];
        var bins := BinIds(key, value, binSize);
        assert forall j :: 0 <= j < |allBins| ==> allBins[j].0 == chromosomeLenDict[j].0 != key;
        allBins := Extend(allBins, key, bins);
        assert BinListsOf(chromosomeLenDict[..i + 1], binSize) == BinListsOf(chromosomeLenDict[..i], binSize) + [(key, bins)];
      }
      assert chromosomeLenDict[..|chromosomeLenDict|] == chromosomeLenDict;
    }

    /** Lines 144-151: the scaffolds are removed and, when a chromosome is
        requested, the dict is cut down to that one entry (a KeyError when it
        is not among the chromosomes). */
    method ChromosomesToAnalyze(individualChrom: Option<string>) returns (r: Option<Dict>)
      ensures r == Restrict(Chromosomes(references), individualChrom)
    {
      var chromosomeLengths := RemoveScaffolds(references);
      if individualChrom.Some? && individualChrom.value != "" {
        var length := Lookup(chromosomeLengths, individualChrom.value);
        if length.None? {
          return None;
        }
        chromosomeLengths := [(individualChrom.value, length.value)];
      }
      return Some(chromosomeLengths);
    }

    /** Lines 157-167: one batch per chromosome, in key order; the first batch
        whose `get()` raises ends the run with that exception. */
    method CollectResults(binsToAnalyze: BinLists) returns (r: Result<seq<BinResult>, Exception>)
      ensures r == FinalResults(parser, binSize, binsToAnalyze)
    {
      var finalResults: seq<BinResult> := [];
      for i := 0 to |binsToAnalyze|
        invariant FinalResults(parser, binSize, binsToAnalyze[..i]) == Success(finalResults)
      {
        assert binsToAnalyze[..i + 1][..i] == binsToAnalyze[..i];
        var results := MapBins(parser, binSize, binsToAnalyze[i].1);
        if results.Failure? {
          FinalResultsStopAtFailure(parser, binSize, binsToAnalyze, i + 1);
          return Failure(results.error);
        }
        finalResults := finalResults + results.value;
      }
      assert binsToAnalyze[..|binsToAnalyze|] == binsToAnalyze;
      return Success(finalResults);
    }

    /** `analyze_bins(individual_chrom)`: the report for the bins of the
        chromosomes (or of the one requested), each batch mapped in order over
        its own copy of the object, so this object's counter is left alone. */
    method AnalyzeBins(individualChrom: Option<string>) returns (r: Result<Report, RunError>)
      ensures match Restrict(Chromosomes(references), individualChrom)
        case None => r == Failure(ChromosomeNotFound(individualChrom.value))
        case Some(t) =>
          match FinalResults(parser, binSize, BinListsOf(t, binSize))
          case Failure(e) => r == Failure(BinFailed(e))
          case Success(results) =>
            r == Success(Report(ReportPath(outputDirectory, bamFile, individualChrom), ReportLines(results)))
    {
      var chromosomeLengths := ChromosomesToAnalyze(individualChrom);
      if chromosomeLengths.None? {
        return Failure(ChromosomeNotFound(individualChrom.value));
      }
      var binsToAnalyze := GenerateBinsList(chromosomeLengths.value);
      var finalResults := CollectResults(binsToAnalyze);
      if finalResults.Failure? {
        return Failure(BinFailed(finalResults.error));
      }
      var outputFile := ReportPath(outputDirectory, bamFile, individualChrom);
      var lines := WriteReport(finalResults.value);
      return Success(Report(outputFile, lines));
    }
  }
}
