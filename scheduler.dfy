/** The order in which `analyze_bins` gathers bin results: one pool batch per
    chromosome, batches one after another, results in submission order. */
module Scheduler {
  import opened Wrappers
  import opened Errors
  import opened Seqs
  import opened ChromosomeIndex
  import opened Bins
  import opened Coverage
  import opened Text

  /** `pool.map_async(calculate_bin_coverage, bins).get()`, as an in-order map:
      the results in bin order, or the exception of the first bin that raised. */
  function MapBins<R>(p: Parser<R>, binSize: Positive, bins: seq<string>): (r: Result<seq<BinResult>, Exception>)
    ensures r.Success? <==> forall i :: 0 <= i < |bins| ==> BinCoverage(p, binSize, bins[i]).Returned?
    ensures r.Success? ==>
      |r.value| == |bins| &&
      forall i :: 0 <= i < |bins| ==> BinCoverage(p, binSize, bins[i]).ToResult() == Success(r.value[i])
    ensures r.Failure? ==>
      exists i :: 0 <= i < |bins| && BinCoverage(p, binSize, bins[i]) == Raised(r.error) &&
        forall j :: 0 <= j < i ==> BinCoverage(p, binSize, bins[j]).Returned?
  {
    if bins == [] then Success([])
    else match BinCoverage(p, binSize, bins[0])
      case Raised(e) => Failure(e)
      case Returned(first, _) =>
        match MapBins(p, binSize, bins[1..])
        case Failure(e) =>
          var i :| 0 <= i < |bins[1..]| && BinCoverage(p, binSize, bins[1..][i]) == Raised(e) &&
            forall j :: 0 <= j < i ==> BinCoverage(p, binSize, bins[1..][j]).Returned?;
          assert BinCoverage(p, binSize, bins[i + 1]) == Raised(e);
          assert forall j :: 0 <= j < i + 1 ==> BinCoverage(p, binSize, bins[j]).Returned?;
          Failure(e)
        case Success(rest) => Success([first] + rest)
  }

  /** The pool stage for the first batches, then the next one. */
  function Then<T>(a: Result<seq<T>, Exception>, b: Result<seq<T>, Exception>): Result<seq<T>, Exception> {
    match a
    case Failure(e) => Failure(e)
    case Success(x) =>
      match b
      case Failure(e) => Failure(e)
      case Success(y) => Success(x + y)
  }

  /** Lines 157-167: `final_results`, extended batch by batch in key order. */
  function FinalResults<R>(p: Parser<R>, binSize: Positive, lists: BinLists): (r: Result<seq<BinResult>, Exception>)
    ensures r.Success? ==> |r.value| == |Flatten(lists)|
  {
    if lists == [] then Success([])
    else Then(FinalResults(p, binSize, lists[..|lists| - 1]), MapBins(p, binSize, lists[|lists| - 1].1))
  }

  /** Once a batch has raised, the later batches do not change the outcome. */
  lemma {:induction false} FinalResultsStopAtFailure<R>(p: Parser<R>, binSize: Positive, lists: BinLists, n: nat)
    requires n <= |lists| && FinalResults(p, binSize, lists[..n]).Failure?
    ensures FinalResults(p, binSize, lists) == FinalResults(p, binSize, lists[..n])
    decreases |lists| - n
  {
    if n < |lists| {
      assert lists[..n + 1][..n] == lists[..n];
      FinalResultsStopAtFailure(p, binSize, lists, n + 1);
    } else {
      assert lists[..n] == lists;
    }
  }

  /** Mapping over two runs of bins is mapping over each, in order. */
  lemma {:induction false} MapBinsAppend<R>(p: Parser<R>, binSize: Positive, a: seq<string>, b: seq<string>)
    ensures MapBins(p, binSize, a + b) == Then(MapBins(p, binSize, a), MapBins(p, binSize, b))
    decreases |a|
  {
    if a != [] {
      assert (a + b)[0] == a[0];
      assert (a + b)[1..] == a[1..] + b;
      MapBinsAppend(p, binSize, a[1..], b);
      match BinCoverage(p, binSize, a[0])
      case Raised(e) =>
      case Returned(first, _) =>
        match MapBins(p, binSize, a[1..])
        case Failure(e) =>
        case Success(rest) =>
          match MapBins(p, binSize, b)
          case Failure(e) =>
          case Success(more) =>
            assert [first] + (rest + more) == ([first] + rest) + more;
    } else {
      assert a + b == b;
      match MapBins(p, binSize, b)
      case Failure(e) =>
      case Success(more) => assert [] + more == more;
    }
  }

  /** Batching by chromosome does not change the outcome: `final_results` is
      the in-order map over all bins, in key order and then bin order. */
  lemma {:induction false} FinalResultsIsMapOfAllBins<R>(p: Parser<R>, binSize: Positive, lists: BinLists)
    ensures FinalResults(p, binSize, lists) == MapBins(p, binSize, Flatten(lists))
    decreases |lists|
  {
    if lists != [] {
      var init := lists[..|lists| - 1];
      FinalResultsIsMapOfAllBins(p, binSize, init);
      MapBinsAppend(p, binSize, Flatten(init), lists[|lists| - 1].1);
    }
  }

  /** For the bins of a chromosome table: `final_results` has one entry per bin
      (TotalBins of them), the k-th being the result of the k-th bin in key
      order and then bin order; it fails only when some bin raised. */
  lemma FinalResultsCoverAllBins<R>(p: Parser<R>, binSize: Positive, t: Table)
    ensures var all := Flatten(BinListsOf(t, binSize));
      var r := FinalResults(p, binSize, BinListsOf(t, binSize));
      && |all| == TotalBins(t, binSize)
      && (r.Success? ==>
            |r.value| == TotalBins(t, binSize) &&
            forall k :: 0 <= k < |all| ==> BinCoverage(p, binSize, all[k]).ToResult() == Success(r.value[k]))
      && (r.Failure? <==> exists k :: 0 <= k < |all| && BinCoverage(p, binSize, all[k]).Raised?)
  {
    AllBinsCount(t, binSize);
    FinalResultsIsMapOfAllBins(p, binSize, BinListsOf(t, binSize));
  }

  /** Every id of every batch is one of the bins that are run. */
  lemma {:induction false} FlattenHolds<K, T>(groups: seq<(K, seq<T>)>, i: nat, j: nat)
    requires i < |groups| && j < |groups[i].1|
    ensures groups[i].1[j] in Flatten(groups)
    decreases |groups|
  {
    var init := groups[..|groups| - 1];
    if i < |groups| - 1 {
      assert init[i] == groups[i];
      FlattenHolds(init, i, j);
    }
  }

  /** A chromosome whose name holds an underscore (such as an alternate contig
      `chr1_KI270706v1_random`, which starts with "chr" and so survives the
      scaffold removal) and has any length gives at least one bin; that bin's
      id cannot be unpacked, so some batch raises and no report is written. */
  lemma UnderscoreChromosomeFails<R>(p: Parser<R>, binSize: Positive, t: Table, i: nat)
    requires i < |t| && '_' in t[i].0 && t[i].1 > 0
    ensures FinalResults(p, binSize, BinListsOf(t, binSize)).Failure?
  {
    var lists := BinListsOf(t, binSize);
    BinListsShape(t, binSize);
    assert (t[i].1 + binSize - 1) / binSize >= 1;
    var bin := lists[i].1[0];
    assert BinCoverage(p, binSize, bin).Raised?;
    FlattenHolds(lists, i, 0);
    FinalResultsIsMapOfAllBins(p, binSize, lists);
  }

  /** The bins of the first batch come first. */
  lemma {:induction false} FlattenFront<K, T>(groups: seq<(K, seq<T>)>)
    requires groups != []
    ensures Flatten(groups) == groups[0].1 + Flatten(groups[1..])
    decreases |groups|
  {
    if |groups| > 1 {
      var init := groups[..|groups| - 1];
      FlattenFront(init);
      assert init[1..] == groups[1..][..|groups[1..]| - 1];
    } else {
      assert groups[..0] == [];
    }
  }

  /** When the first chromosome's name holds an underscore and it has any
      length, its first bin raises, so the run fails with that ValueError. */
  lemma FirstChromosomeUnderscoreFails<R>(p: Parser<R>, binSize: Positive, t: Table)
    requires t != [] && '_' in t[0].0 && t[0].1 > 0
    ensures FinalResults(p, binSize, BinListsOf(t, binSize)) == Failure(ValueError)
  {
    var lists := BinListsOf(t, binSize);
    BinListsShape(t, binSize);
    assert (t[0].1 + binSize - 1) / binSize >= 1;
    assert BinCoverage(p, binSize, lists[0].1[0]) == Raised(ValueError);
    FlattenFront(lists);
    FinalResultsIsMapOfAllBins(p, binSize, lists);
  }

  /** An hg38 alternate contig of 150 bases with bins of 100: the run fails
      with the ValueError of its first bin id. */
  lemma AlternateContigExample<R>(p: Parser<R>, name: string)
    requires name == "chr1_KI270706v1_random"
    ensures FinalResults(p, 100, BinListsOf(Chromosomes([(name, 150)]), 100)) == Failure(ValueError)
  {
    var t: Table := [(name, 150)];
    assert name[..3] == "chr" && name[4] == '_';
    FilterAll(t, IsChromosomeEntry);
    FirstChromosomeUnderscoreFails(p, 100, t);
  }
}
