/** Bin enumeration: the bin ends of each chromosome and the textual bin ids
    `<chromosome>_<end>`. */
module Bins {
  import opened Wrappers
  import opened Errors
  import opened Text
  import opened Seqs
  import opened ChromosomeIndex

  type Positive = n: nat | n > 0 witness 1

  /** A chromosome's bins: its name with the list of its bin ids, in order. */
  type BinLists = seq<(string, seq<string>)>

  /** numpy's `arange(start, stop, step)` for a positive integer step:
      start, start + step, ... while below `stop`. */
  function Arange(start: int, stop: int, step: Positive): (r: seq<int>)
    ensures r == [] <==> start >= stop
    ensures forall i :: 0 <= i < |r| ==> start <= r[i] < stop
    decreases stop - start
  {
    if start >= stop then [] else [start] + Arange(start + step, stop, step)
  }

  lemma {:induction false} MulAtLeast(s: nat, d: int)
    requires d >= 1
    ensures s * d >= s
    decreases d
  {
    if d > 1 {
      MulAtLeast(s, d - 1);
      assert s * d == s * (d - 1) + s;
    }
  }

  /** Euclidean division has one quotient. */
  lemma DivUnique(y: int, s: Positive, q: int, r: int)
    requires y == s * q + r && 0 <= r < s
    ensures y / s == q
  {
    var q', r' := y / s, y % s;
    assert y == s * q' + r';
    if q' > q {
      MulAtLeast(s, q' - q);
    } else if q' < q {
      MulAtLeast(s, q - q');
    }
  }

  lemma DivAddDivisor(x: int, s: Positive)
    ensures (x + s) / s == x / s + 1
  {
    assert x + s == s * (x / s + 1) + x % s;
    DivUnique(x + s, s, x / s + 1, x % s);
  }

  lemma DivInSecondBand(y: int, s: Positive)
    requires s <= y < 2 * s
    ensures y / s == 1
  {
    DivUnique(y, s, 1, y - s);
  }

  /** `arange` yields ceil((stop - start) / step) values, the i-th being
      start + i * step, all below `stop`, the last within one step of it. */
  lemma {:induction false} ArangeShape(start: int, stop: int, step: Positive)
    ensures var r := Arange(start, stop, step);
      && |r| == (if start < stop then (stop - start + step - 1) / step else 0)
      && (forall i :: 0 <= i < |r| ==> r[i] == start + i * step && r[i] < stop)
      && (r != [] ==> r[|r| - 1] + step >= stop)
    decreases stop - start
  {
    if start < stop {
      var r := Arange(start, stop, step);
      var r' := Arange(start + step, stop, step);
      ArangeShape(start + step, stop, step);
      if start + step >= stop {
        DivInSecondBand(stop - start + step - 1, step);
      } else {
        DivAddDivisor(stop - start - 1, step);
      }
      forall i | 0 < i < |r| ensures r[i] == start + i * step {
        assert r[i] == r'[i - 1] == start + step + (i - 1) * step;
      }
    }
  }

  /** The bin ends of a chromosome of length `length`: `np.arange(B, length + B, B)`. */
  function BinEnds(length: nat, binSize: Positive): (e: seq<int>)
    ensures e == [] <==> length == 0
    ensures forall i :: 0 <= i < |e| ==> binSize <= e[i] < length + binSize
  {
    Arange(binSize, length + binSize, binSize)
  }

  /** The bin ends are B, 2B, 3B, ...: ceil(length / B) of them, strictly
      increasing, each below length + B, none for an empty chromosome, and the
      last one reaches the chromosome's end. */
  lemma BinEndsShape(length: nat, binSize: Positive)
    ensures var e := BinEnds(length, binSize);
      && |e| == (length + binSize - 1) / binSize
      && (forall i :: 0 <= i < |e| ==> e[i] == (i + 1) * binSize && 0 < e[i] < length + binSize)
      && (forall i, j :: 0 <= i < j < |e| ==> e[i] < e[j])
      && (length == 0 <==> e == [])
      && (length > 0 ==> e[|e| - 1] >= length)
  {
    var e := BinEnds(length, binSize);
    ArangeShape(binSize, length + binSize, binSize);
    forall i | 0 <= i < |e| ensures e[i] == (i + 1) * binSize && 0 < e[i] {
      assert e[i] == binSize + i * binSize;
    }
    forall i, j | 0 <= i < j < |e| ensures e[i] < e[j] {
      assert e[j] - e[i] == (j - i) * binSize;
      MulAtLeast(binSize, j - i);
    }
    if length > 0 {
      assert length + binSize - 1 >= binSize;
    }
  }

  /** The numpy example of a chromosome of length 250 in bins of 100. */
  lemma BinEndsExample()
    ensures BinEnds(250, 100) == [100, 200, 300]
  {
  }

  /** `"_".join([chrom, str(end)])`. */
  function BinId(chrom: string, end: nat): (id: string)
    ensures StartsWith(id, chrom + "_")
    ensures AllDigits(id[|chrom| + 1..]) && |id| > |chrom| + 1
  {
    chrom + "_" + NatToString(end)
  }

  /** `chromosome, bin_location = bin.split("_")` followed by `int(bin_location)`:
      the unpacking raises `ValueError` unless there are exactly two pieces,
      and so does `int` on a tail that is not a number. */
  function SplitBinId(bin: string): (r: Result<(string, int), Exception>)
    ensures r.Failure? ==> r.error == ValueError
    ensures r.Success? ==> '_' !in r.value.0 && StartsWith(bin, r.value.0 + "_")
    ensures '_' !in bin ==> r.Failure?
  {
    var parts := Split(bin, '_');
    SplitJoin(bin, '_');
    SplitPieces(bin, '_');
    if '_' !in bin then SplitNoSeparator(bin, '_'); Failure(ValueError) else
    if |parts| != 2 then Failure(ValueError)
    else match ParseInt(parts[1])
      case None => Failure(ValueError)
      case Some(end) => Success((parts[0], end))
  }

  /** Splitting a bin id recovers the chromosome and the end exactly when the
      chromosome name has no underscore; otherwise the unpacking fails. */
  lemma BinIdRoundTrip(chrom: string, end: nat)
    ensures '_' !in chrom ==> SplitBinId(BinId(chrom, end)) == Success((chrom, end))
    ensures '_' in chrom ==> SplitBinId(BinId(chrom, end)) == Failure(ValueError)
  {
    var digits := NatToString(end);
    NatToStringHasNoSeparator(end, '_');
    SplitNoSeparator(digits, '_');
    SplitConcat(chrom, digits, '_');
    ParseIntNatToString(end);
    if '_' in chrom {
      SplitSeparator(chrom, '_');
    } else {
      SplitNoSeparator(chrom, '_');
    }
  }

  /** Lines 122-123 for one chromosome: its bin ids, in bin order, the j-th
      one naming the end (j + 1) * B. */
  function BinIds(chrom: string, length: nat, binSize: Positive): (ids: seq<string>)
    ensures |ids| == (length + binSize - 1) / binSize
    ensures forall j :: 0 <= j < |ids| ==> ids[j] == BinId(chrom, (j + 1) * binSize)
  {
    var ends := BinEnds(length, binSize);
    BinEndsShape(length, binSize);
    seq(|ends|, i requires 0 <= i < |ends| => BinId(chrom, ends[i]))
  }

  /** The result of `generate_bins_list` on a dict: one key per chromosome, in
      the table's order, each with its bin ids. */
  function BinListsOf(t: Table, binSize: Positive): (lists: BinLists)
    ensures |lists| == |t|
    ensures forall i :: 0 <= i < |t| ==> lists[i].0 == t[i].0
  {
    seq(|t|, i requires 0 <= i < |t| => (t[i].0, BinIds(t[i].0, t[i].1, binSize)))
  }

  /** `all_bins[k].extend(xs)` on a `defaultdict(list)`: extends the list of
      `k`, or appends a new key with `xs` when `k` is absent. */
  function Extend(d: BinLists, k: string, xs: seq<string>): (r: BinLists)
    ensures (forall j :: 0 <= j < |d| ==> d[j].0 != k) ==> r == d + [(k, xs)]
  {
    if d == [] then [(k, xs)]
    else if d[0].0 == k then [(k, d[0].1 + xs)] + d[1..]
    else [d[0]] + Extend(d[1..], k, xs)
  }

  /** Every chromosome of the table keeps its key, in order, possibly with an
      empty list; each list holds ceil(length / B) ids, the j-th of which is
      `<chromosome>_<(j + 1) * B>`. That id splits back to the chromosome and
      the end when the name has no underscore, and fails to split with
      ValueError when it has one. */
  lemma BinListsShape(t: Table, binSize: Positive)
    ensures var lists := BinListsOf(t, binSize);
      && |lists| == |t|
      && (forall i :: 0 <= i < |t| ==>
            lists[i].0 == t[i].0 && |lists[i].1| == (t[i].1 + binSize - 1) / binSize)
      && (forall i, j :: 0 <= i < |t| && 0 <= j < |lists[i].1| ==>
            lists[i].1[j] == BinId(t[i].0, (j + 1) * binSize))
      && (forall i, j :: 0 <= i < |t| && 0 <= j < |lists[i].1| && '_' !in t[i].0 ==>
            SplitBinId(lists[i].1[j]) == Success((t[i].0, (j + 1) * binSize)))
      && (forall i, j :: 0 <= i < |t| && 0 <= j < |lists[i].1| && '_' in t[i].0 ==>
            SplitBinId(lists[i].1[j]) == Failure(ValueError))
  {
    var lists := BinListsOf(t, binSize);
    forall i | 0 <= i < |t|
      ensures |lists[i].1| == (t[i].1 + binSize - 1) / binSize
    {
      BinEndsShape(t[i].1, binSize);
    }
    forall i, j | 0 <= i < |t| && 0 <= j < |lists[i].1|
      ensures '_' !in t[i].0 ==> SplitBinId(lists[i].1[j]) == Success((t[i].0, (j + 1) * binSize))
      ensures '_' in t[i].0 ==> SplitBinId(lists[i].1[j]) == Failure(ValueError)
    {
      BinEndsShape(t[i].1, binSize);
      BinIdRoundTrip(t[i].0, (j + 1) * binSize);
    }
  }

  /** The total number of bins of a table: the sum of ceil(length / B). */
  function TotalBins(t: Table, binSize: Positive): nat {
    if t == [] then 0
    else TotalBins(t[..|t| - 1], binSize) + (t[|t| - 1].1 + binSize - 1) / binSize
  }

  /** All bins of all chromosomes, in key order and then bin order, number TotalBins. */
  lemma {:induction false} AllBinsCount(t: Table, binSize: Positive)
    ensures |Flatten(BinListsOf(t, binSize))| == TotalBins(t, binSize)
    decreases |t|
  {
    if t != [] {
      var init := t[..|t| - 1];
      var lists := BinListsOf(t, binSize);
      assert lists[..|lists| - 1] == BinListsOf(init, binSize);
      AllBinsCount(init, binSize);
      BinEndsShape(t[|t| - 1].1, binSize);
    }
  }
}
