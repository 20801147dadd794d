/** The report of `analyze_bins`: its file name and its lines `bin,rows,cols`. */
module ReportWriter {
  import opened Wrappers
  import opened Seqs
  import opened Text
  import opened Coverage

  /** The path of the written file and its lines, each written with a final newline. */
  datatype Report = Report(path: string, lines: seq<string>)

  /** Lines 178-182 for one result: the bin id, the number of reads (rows) and
      the number of CpGs (columns). */
  function ReportLine(result: (string, Matrix)): (line: string)
    ensures StartsWith(line, result.0 + ",")
    ensures Split(line, ',') == Split(result.0, ',') + [NatToString(|result.1.rows|), NatToString(result.1.ncols)]
  {
    var rows, cols := NatToString(|result.1.rows|), NatToString(result.1.ncols);
    NatToStringHasNoSeparator(|result.1.rows|, ',');
    NatToStringHasNoSeparator(result.1.ncols, ',');
    SplitNoSeparator(rows, ',');
    SplitNoSeparator(cols, ',');
    SplitConcat(rows, cols, ',');
    SplitConcat(result.0, rows + "," + cols, ',');
    assert result.0 + "," + rows + "," + cols == result.0 + [','] + (rows + [','] + cols);
    result.0 + "," + rows + "," + cols
  }

  /** Lines 175-182: one line per result that is not `None`, in order. */
  function ReportLines(results: seq<BinResult>): (lines: seq<string>)
    ensures |lines| <= |results|
  {
    if results == [] then []
    else
      var last := results[|results| - 1];
      ReportLines(results[..|results| - 1]) + (if last.Some? then [ReportLine(last.value)] else [])
  }

  predicate IsPresent(result: BinResult) {
    result.Some?
  }

  /** The report has exactly one line per present result, in the order of the
      results, and none for a `None` result. */
  lemma {:induction false} ReportLinesArePresentResults(results: seq<BinResult>)
    ensures var present := Filter(results, IsPresent);
      && |ReportLines(results)| == |present|
      && forall i :: 0 <= i < |present| ==> ReportLines(results)[i] == ReportLine(present[i].value)
    decreases |results|
  {
    if results != [] {
      ReportLinesArePresentResults(results[..|results| - 1]);
      var present := Filter(results, IsPresent);
      forall i | 0 <= i < |present| ensures present[i].Some? {
        assert IsPresent(present[i]);
      }
    }
  }

  /** Writing the results of two batches is writing each, one after the other. */
  lemma {:induction false} ReportLinesAppend(a: seq<BinResult>, b: seq<BinResult>)
    ensures ReportLines(a + b) == ReportLines(a) + ReportLines(b)
    decreases |b|
  {
    if b == [] {
      assert a + b == a;
    } else {
      assert (a + b)[..|a + b| - 1] == a + b[..|b| - 1];
      ReportLinesAppend(a, b[..|b| - 1]);
    }
  }

  /** Reading a report line back: three comma-separated fields, the last two numbers. */
  function ParseReportLine(line: string): Option<(string, int, int)> {
    var fields := Split(line, ',');
    if |fields| != 3 then None
    else match (ParseInt(fields[1]), ParseInt(fields[2]))
      case (Some(rows), Some(cols)) => Some((fields[0], rows, cols))
      case _ => None
  }

  /** A report line gives back its bin id, row count and column count when the
      bin id has no comma. */
  lemma ReportLineRoundTrip(bin: string, m: Matrix)
    requires ',' !in bin
    ensures ParseReportLine(ReportLine((bin, m))) == Some((bin, |m.rows|, m.ncols))
  {
    var rows, cols := NatToString(|m.rows|), NatToString(m.ncols);
    NatToStringHasNoSeparator(|m.rows|, ',');
    NatToStringHasNoSeparator(m.ncols, ',');
    SplitNoSeparator(bin, ',');
    SplitNoSeparator(rows, ',');
    SplitNoSeparator(cols, ',');
    SplitConcat(rows, cols, ',');
    assert ReportLine((bin, m)) == bin + [','] + (rows + [','] + cols);
    SplitConcat(bin, rows + [','] + cols, ',');
    ParseIntNatToString(|m.rows|);
    ParseIntNatToString(m.ncols);
  }

  /** Lines 174-182 as a loop: the lines written for `final_results`. */
  method WriteReport(results: seq<BinResult>) returns (lines: seq<string>)
    ensures lines == ReportLines(results)
  {
    lines := [];
    for i := 0 to |results|
      invariant lines == ReportLines(results[..i])
    {
      assert results[..i + 1][..i] == results[..i];
      if results[i].Some? {
        lines := lines + [ReportLine(results[i].value)];
      }
    }
    assert results[..|results|] == results;
  }

  /** `os.path.basename(p)`: what follows the last '/'. */
  function Basename(p: string): (b: string)
    ensures '/' !in b
    ensures |b| <= |p| && b == p[|p| - |b|..]
    ensures |b| < |p| ==> p[|p| - |b| - 1] == '/'
  {
    if p == [] || p[|p| - 1] == '/' then []
    else Basename(p[..|p| - 1]) + [p[|p| - 1]]
  }

  /** `os.path.join(directory, name)` (POSIX): an absolute name replaces the
      directory; otherwise the two are joined with one '/' unless the
      directory already ends with one. */
  function JoinPath(directory: string, name: string): (path: string)
    ensures |path| >= |name| && path[|path| - |name|..] == name
    ensures name != [] && name[0] == '/' ==> path == name
    ensures name == [] || name[0] != '/' ==>
      StartsWith(path, directory) && |path| >= |directory| + |name| &&
      (directory != [] ==> path[|path| - |name| - 1] == '/')
  {
    if name != [] && name[0] == '/' then name
    else if directory == [] || directory[|directory| - 1] == '/' then directory + name
    else directory + "/" + name
  }

  /** `"{}".format(individual_chrom)`: Python formats a missing chromosome as "None". */
  function ChromosomeText(chrom: Option<string>): string {
    match chrom
    case None => "None"
    case Some(name) => name
  }

  /** `"CompleteBins.{}.{}.csv".format(basename(bam), individual_chrom)`. */
  function ReportName(bamFile: string, chrom: Option<string>): (name: string)
    ensures StartsWith(name, "CompleteBins.")
    ensures |name| >= 17 && name[|name| - 4..] == ".csv"
  {
    FramedBy("CompleteBins.", Basename(bamFile), ".", ChromosomeText(chrom), ".csv");
    "CompleteBins." + Basename(bamFile) + "." + ChromosomeText(chrom) + ".csv"
  }

  /** A concatenation of five strings begins with the first and ends with the last. */
  lemma FramedBy(a: string, b: string, c: string, d: string, e: string)
    ensures (a + b + c + d + e)[..|a|] == a
    ensures (a + b + c + d + e)[|a + b + c + d + e| - |e|..] == e
  {
  }

  /** Line 172: the path of the report inside the output directory. */
  function ReportPath(directory: string, bamFile: string, chrom: Option<string>): (path: string)
    ensures StartsWith(path, directory)
    ensures |path| >= |directory| + 17 && path[|path| - 4..] == ".csv"
  {
    var name := ReportName(bamFile, chrom);
    EndsWithSuffix(JoinPath(directory, name), name, ".csv");
    JoinPath(directory, name)
  }

  /** A string that ends with a name ends with that name's own suffix. */
  lemma EndsWithSuffix(s: string, name: string, suffix: string)
    requires |name| <= |s| && s[|s| - |name|..] == name
    requires |suffix| <= |name| && name[|name| - |suffix|..] == suffix
    ensures s[|s| - |suffix|..] == suffix
  {
    assert s[|s| - |suffix|..] == name[|name| - |suffix|..];
  }

  /** The base name of a string that ends with a name without '/' after a '/'
      (or without any '/') is that name. */
  lemma {:induction false} BasenameOfName(directory: string, name: string)
    requires '/' !in name
    requires directory == [] || directory[|directory| - 1] == '/'
    ensures Basename(directory + name) == name
    decreases |name|
  {
    if name == [] {
      assert directory + name == directory;
    } else {
      var init := name[..|name| - 1];
      assert (directory + name)[..|directory + name| - 1] == directory + init;
      BasenameOfName(directory, init);
    }
  }

  /** The report name has no '/' when the chromosome text has none: the
      base name of the BAM file never has one. */
  lemma ReportNameHasNoSlash(bamFile: string, chrom: Option<string>)
    requires '/' !in ChromosomeText(chrom)
    ensures '/' !in ReportName(bamFile, chrom)
  {
    var prefix, dot, suffix := "CompleteBins.", ".", ".csv";
    assert '/' !in prefix && '/' !in dot && '/' !in suffix;
    var name := prefix + Basename(bamFile) + dot + ChromosomeText(chrom) + suffix;
    assert name == ReportName(bamFile, chrom);
  }

  /** Joining a name without '/' onto a directory gives a path whose base
      name is that name. */
  lemma BasenameOfJoin(directory: string, name: string)
    requires '/' !in name
    ensures Basename(JoinPath(directory, name)) == name
  {
    if directory == [] || directory[|directory| - 1] == '/' {
      BasenameOfName(directory, name);
    } else {
      var withSlash := directory + "/";
      assert withSlash[|withSlash| - 1] == '/';
      assert JoinPath(directory, name) == withSlash + name;
      BasenameOfName(withSlash, name);
    }
  }

  /** The report is written directly inside the output directory under the
      name `CompleteBins.<bam basename>.<chromosome or None>.csv`. */
  lemma ReportPathShape(directory: string, bamFile: string, chrom: Option<string>)
    requires '/' !in ChromosomeText(chrom)
    ensures Basename(ReportPath(directory, bamFile, chrom)) == ReportName(bamFile, chrom)
  {
    ReportNameHasNoSlash(bamFile, chrom);
    BasenameOfJoin(directory, ReportName(bamFile, chrom));
  }
}
