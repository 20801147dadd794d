/** The per-bin coverage decision of `calculate_bin_coverage`: fetch the reads,
    build the read-by-CpG matrix, keep the complete rows and, when none remain,
    try once more with corrected CpG positions. */
module Coverage {
  import opened Wrappers
  import opened Errors
  import opened Seqs
  import opened Bins

  /** One cell of the matrix: a methylation call, or no data (NaN). */
  datatype Cell = Missing | Call(methylated: bool)

  /** A pandas DataFrame of reads (rows) by CpG positions (columns). The column
      count is kept apart so that a matrix without rows still has one. */
  datatype Matrix = Matrix(rows: seq<seq<Cell>>, ncols: nat)

  predicate WellFormed(m: Matrix) {
    forall i :: 0 <= i < |m.rows| ==> |m.rows[i]| == m.ncols
  }

  /** The row has at least one call: what `dropna(how="all")` keeps. A row
      without cells has none, so it is dropped. */
  predicate HasCall(row: seq<Cell>) {
    exists j :: 0 <= j < |row| && row[j].Call?
  }

  /** The row has no missing cell: what `dropna()` keeps. */
  predicate NoMissing(row: seq<Cell>) {
    forall j :: 0 <= j < |row| ==> row[j].Call?
  }

  /** A row that survives both filters: it has cells, and none is missing. */
  predicate IsCompleteRow(row: seq<Cell>) {
    NoMissing(row) && row != []
  }

  /** `matrix.dropna(how="all")`: the columns stay; the rows with at least one
      call are kept, in order, and the others are dropped. */
  function DropAllMissing(m: Matrix): (r: Matrix)
    ensures r.ncols == m.ncols && |r.rows| <= |m.rows|
    ensures forall i :: 0 <= i < |r.rows| ==> HasCall(r.rows[i]) && r.rows[i] in m.rows
    ensures forall i :: 0 <= i < |m.rows| && HasCall(m.rows[i]) ==> m.rows[i] in r.rows
  {
    Matrix(Filter(m.rows, HasCall), m.ncols)
  }

  /** `matrix.dropna()`: the columns stay; the rows without a missing cell are
      kept, in order, and the others are dropped. */
  function DropAnyMissing(m: Matrix): (r: Matrix)
    ensures r.ncols == m.ncols && |r.rows| <= |m.rows|
    ensures forall i :: 0 <= i < |r.rows| ==> NoMissing(r.rows[i]) && r.rows[i] in m.rows
    ensures forall i :: 0 <= i < |m.rows| && NoMissing(m.rows[i]) ==> m.rows[i] in r.rows
  {
    Matrix(Filter(m.rows, NoMissing), m.ncols)
  }

  /** The two filters of lines 64 and 66: the rows that are complete and not
      empty, in order; the column count is untouched. */
  function CompleteRows(m: Matrix): Matrix {
    DropAnyMissing(DropAllMissing(m))
  }

  /** The two filters in a row keep exactly the complete rows, in order. */
  lemma {:induction false} CompleteRowsFilter(rows: seq<seq<Cell>>)
    ensures Filter(Filter(rows, HasCall), NoMissing) == Filter(rows, IsCompleteRow)
    decreases |rows|
  {
    if rows != [] {
      var init := rows[..|rows| - 1];
      var last := rows[|rows| - 1];
      CompleteRowsFilter(init);
      var kept: seq<seq<Cell>> := if HasCall(last) then [last] else [];
      FilterAppend(Filter(init, HasCall), kept, NoMissing);
      if HasCall(last) {
        assert kept[..0] == [];
      }
      if IsCompleteRow(last) {
        assert last[0].Call?;
      }
    }
  }

  /** Filtering removes rows only: the column count stays, and the surviving
      rows are the complete rows of the input in their order, each one kept as
      often as it occurs; so the row count is the number of reads that cover
      every CpG of the bin. */
  lemma CompleteRowsShape(m: Matrix)
    ensures var c := CompleteRows(m);
      && c.ncols == m.ncols
      && c.rows == Filter(m.rows, IsCompleteRow)
      && |c.rows| <= |m.rows|
      && (WellFormed(m) ==> WellFormed(c))
      && (forall i :: 0 <= i < |c.rows| ==> c.rows[i] in m.rows && IsCompleteRow(c.rows[i]))
      && (forall row :: multiset(c.rows)[row] == if IsCompleteRow(row) then multiset(m.rows)[row] else 0)
  {
    CompleteRowsFilter(m.rows);
    forall row ensures multiset(CompleteRows(m).rows)[row] == if IsCompleteRow(row) then multiset(m.rows)[row] else 0 {
      FilterCount(m.rows, IsCompleteRow, row);
    }
  }

  /** The three calls into the BAM-file parser, each of which may raise. */
  datatype Parser<!R> = Parser(
    parseReads: (string, int, int) -> Result<R, Exception>,
    createMatrix: R -> Result<Matrix, Exception>,
    correctCpgPositions: R -> Result<R, Exception>)

  /** What `calculate_bin_coverage` returns: `None`, or the bin id with its matrix. */
  type BinResult = Option<(string, Matrix)>

  /** Which way the bin went. */
  datatype Branch =
    | NoReads               // parse_reads or create_matrix raised: counted, no result
    | Complete              // complete rows remain: no correction
    | CorrectionIndexError  // the rebuild raised InvalidIndexError: the original matrix is returned
    | CorrectionValueError  // the rebuild raised ValueError: the original matrix falls through
    | CorrectionSucceeded   // the rebuilt matrix has complete rows
    | CorrectionFailed      // the rebuilt matrix has none

  /** A bin either returns (a result and the branch taken) or raises. */
  datatype Outcome = Raised(error: Exception) | Returned(result: BinResult, branch: Branch) {
    function ToResult(): Result<BinResult, Exception> {
      match this
      case Raised(e) => Failure(e)
      case Returned(r, _) => Success(r)
    }

    /** The outcomes that add one to `bins_no_reads`. */
    predicate CountsNoReads() {
      this == Returned(None, NoReads)
    }
  }

  /** Lines 68-87, reached with the filtered matrix `m` that has no rows. */
  function Correction<R>(p: Parser<R>, bin: string, fetched: R, m: Matrix): (o: Outcome)
    ensures o.Returned? ==> o.result.Some? && o.result.value.0 == bin && o.branch != NoReads && o.branch != Complete
    ensures o.Raised? ==>
      p.correctCpgPositions(fetched).Failure? || p.createMatrix(p.correctCpgPositions(fetched).value) == Failure(OtherException)
    ensures o.Returned? && o.result.Some? && (forall i :: 0 <= i < |m.rows| ==> NoMissing(m.rows[i])) ==>
      forall i :: 0 <= i < |o.result.value.1.rows| ==> NoMissing(o.result.value.1.rows[i])
  {
    match p.correctCpgPositions(fetched)
    case Failure(e) => Raised(e)
    case Success(corrected) =>
      match p.createMatrix(corrected)
      case Failure(InvalidIndexError) => Returned(Some((bin, m)), CorrectionIndexError)
      case Failure(ValueError) => Returned(Some((bin, DropAnyMissing(m))), CorrectionValueError)
      case Failure(OtherException) => Raised(OtherException)
      case Success(rebuilt) =>
        var r := DropAnyMissing(rebuilt);
        Returned(Some((bin, r)), if |r.rows| > 0 then CorrectionSucceeded else CorrectionFailed)
  }

  /** Lines 52-87 for a bin whose id split into `chrom` and `end`. */
  function CoverageAt<R>(p: Parser<R>, binSize: Positive, bin: string, chrom: string, end: int): (o: Outcome)
    ensures o.CountsNoReads() <==>
      p.parseReads(chrom, end - binSize, end).Failure? ||
      p.createMatrix(p.parseReads(chrom, end - binSize, end).value).Failure?
    ensures o.Returned? && o.result.None? ==> o.CountsNoReads()
    ensures o.Returned? && o.result.Some? ==>
      o.result.value.0 == bin && forall i :: 0 <= i < |o.result.value.1.rows| ==> NoMissing(o.result.value.1.rows[i])
  {
    match p.parseReads(chrom, end - binSize, end)
    case Failure(_) => Returned(None, NoReads)
    case Success(fetched) =>
      match p.createMatrix(fetched)
      case Failure(_) => Returned(None, NoReads)
      case Success(created) =>
        var m := CompleteRows(created);
        if |m.rows| == 0 then Correction(p, bin, fetched, m)
        else Returned(Some((bin, m)), Complete)
  }

  /** `calculate_bin_coverage(bin)` as a function of the parser. */
  function BinCoverage<R>(p: Parser<R>, binSize: Positive, bin: string): (o: Outcome)
    ensures SplitBinId(bin).Failure? ==> o == Raised(ValueError)
    ensures o.Returned? && o.result.None? <==> o.CountsNoReads()
    ensures o.Returned? && o.result.Some? ==>
      o.result.value.0 == bin && forall i :: 0 <= i < |o.result.value.1.rows| ==> NoMissing(o.result.value.1.rows[i])
  {
    match SplitBinId(bin)
    case Failure(e) => Raised(e)
    case Success((chrom, end)) => CoverageAt(p, binSize, bin, chrom, end)
  }

  /** For a bin id that generate_bins_list produced, the reads are fetched for
      the interval (end - B, end] of its own chromosome; a chromosome name with
      an underscore makes the unpacking raise ValueError before the `try`. */
  lemma BinCoverageOfBinId<R>(p: Parser<R>, binSize: Positive, chrom: string, end: nat)
    ensures '_' !in chrom ==>
      BinCoverage(p, binSize, BinId(chrom, end)) == CoverageAt(p, binSize, BinId(chrom, end), chrom, end)
    ensures '_' in chrom ==> BinCoverage(p, binSize, BinId(chrom, end)) == Raised(ValueError)
  {
    BinIdRoundTrip(chrom, end);
  }

  /** Whatever parse_reads or create_matrix raises, the bin has no result and
      is counted as a bin without reads. */
  lemma FetchFailureCounted<R>(p: Parser<R>, binSize: Positive, bin: string, chrom: string, end: int)
    requires SplitBinId(bin) == Success((chrom, end))
    requires p.parseReads(chrom, end - binSize, end).Failure?
          || p.createMatrix(p.parseReads(chrom, end - binSize, end).value).Failure?
    ensures BinCoverage(p, binSize, bin).CountsNoReads()
  {
  }

  /** When complete rows remain, the filtered matrix is returned as it is and
      the correction is never called: replacing correct_cpg_positions by any
      other function changes nothing. */
  lemma NoCorrectionWhenRowsRemain<R>(p: Parser<R>, binSize: Positive, bin: string, chrom: string, end: int,
                                      fetched: R, created: Matrix, other: R -> Result<R, Exception>)
    requires SplitBinId(bin) == Success((chrom, end))
    requires p.parseReads(chrom, end - binSize, end) == Success(fetched)
    requires p.createMatrix(fetched) == Success(created)
    requires |CompleteRows(created).rows| > 0
    ensures BinCoverage(p, binSize, bin) == Returned(Some((bin, CompleteRows(created))), Complete)
    ensures BinCoverage(p.(correctCpgPositions := other), binSize, bin) == BinCoverage(p, binSize, bin)
    ensures CompleteRows(created).ncols == created.ncols
  {
  }

  /** When no complete row remains, the correction is called on the fetched
      reads: an exception it raises escapes, otherwise the bin takes one of
      the correction branches. */
  lemma CorrectionWhenNoRows<R>(p: Parser<R>, binSize: Positive, bin: string, chrom: string, end: int,
                                fetched: R, created: Matrix)
    requires SplitBinId(bin) == Success((chrom, end))
    requires p.parseReads(chrom, end - binSize, end) == Success(fetched)
    requires p.createMatrix(fetched) == Success(created)
    requires |CompleteRows(created).rows| == 0
    ensures var o := BinCoverage(p, binSize, bin);
      && (p.correctCpgPositions(fetched).Failure? ==> o == Raised(p.correctCpgPositions(fetched).error))
      && (p.correctCpgPositions(fetched).Success? ==>
            o.Raised? || (o.Returned? && o.result.Some? && o.branch != Complete && o.branch != NoReads))
  {
  }

  /** When the rebuild after correction fails in one of the two handled ways,
      the bin still returns the original matrix, which has no rows. */
  lemma CorrectionRebuildFails<R>(p: Parser<R>, binSize: Positive, bin: string, chrom: string, end: int,
                                  fetched: R, created: Matrix, corrected: R)
    requires SplitBinId(bin) == Success((chrom, end))
    requires p.parseReads(chrom, end - binSize, end) == Success(fetched)
    requires p.createMatrix(fetched) == Success(created)
    requires |CompleteRows(created).rows| == 0
    requires p.correctCpgPositions(fetched) == Success(corrected)
    requires p.createMatrix(corrected).Failure?
    ensures p.createMatrix(corrected).error == InvalidIndexError ==>
      BinCoverage(p, binSize, bin) == Returned(Some((bin, CompleteRows(created))), CorrectionIndexError)
    ensures p.createMatrix(corrected).error == ValueError ==>
      BinCoverage(p, binSize, bin) == Returned(Some((bin, CompleteRows(created))), CorrectionValueError)
    ensures p.createMatrix(corrected).error == OtherException ==>
      BinCoverage(p, binSize, bin) == Raised(OtherException)
  {
    var m := CompleteRows(created);
    assert DropAnyMissing(m) == m;
  }

  /** After a successful rebuild only `dropna()` is applied: the result has the
      rebuilt matrix's column count, its complete rows, and the branch says
      whether any remain. Rows without cells survive this filter although the
      first filtering drops them. */
  lemma CorrectionRebuilt<R>(p: Parser<R>, binSize: Positive, bin: string, chrom: string, end: int,
                             fetched: R, created: Matrix, corrected: R, rebuilt: Matrix)
    requires SplitBinId(bin) == Success((chrom, end))
    requires p.parseReads(chrom, end - binSize, end) == Success(fetched)
    requires p.createMatrix(fetched) == Success(created)
    requires |CompleteRows(created).rows| == 0
    requires p.correctCpgPositions(fetched) == Success(corrected)
    requires p.createMatrix(corrected) == Success(rebuilt)
    ensures var o := BinCoverage(p, binSize, bin);
      && o.Returned? && o.result.Some?
      && o.result.value.1.ncols == rebuilt.ncols
      && o.result.value.1.rows == Filter(rebuilt.rows, NoMissing)
      && (forall i :: 0 <= i < |rebuilt.rows| && NoMissing(rebuilt.rows[i]) ==> rebuilt.rows[i] in o.result.value.1.rows)
      && (forall row :: multiset(o.result.value.1.rows)[row] == if NoMissing(row) then multiset(rebuilt.rows)[row] else 0)
      && (o.branch == CorrectionSucceeded <==> |o.result.value.1.rows| > 0)
  {
    forall row ensures multiset(Filter(rebuilt.rows, NoMissing))[row] == if NoMissing(row) then multiset(rebuilt.rows)[row] else 0 {
      FilterCount(rebuilt.rows, NoMissing, row);
    }
  }
}
