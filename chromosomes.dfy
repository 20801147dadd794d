/** The chromosome-length table: a Python dict from sequence name to length,
    kept as a sequence of entries in insertion order. */
module ChromosomeIndex {
  import opened Wrappers
  import opened Seqs
  import opened Text

  type Table = seq<(string, nat)>

  /** What makes a sequence of entries a dict: no name occurs twice. */
  predicate IsDict(t: Table) {
    forall i, j :: 0 <= i < j < |t| ==> t[i].0 != t[j].0
  }

  /** A table that is a dict. */
  type Dict = t: Table | IsDict(t) witness []

  predicate HasKey(t: Table, k: string) {
    exists i :: 0 <= i < |t| && t[i].0 == k
  }

  /** `t[k]`: the length stored under `k`; `None` where Python raises `KeyError`. */
  function Lookup(t: Table, k: string): (v: Option<nat>)
    ensures v.None? <==> !HasKey(t, k)
    ensures v.Some? ==> (k, v.value) in t
    ensures IsDict(t) ==> forall i :: 0 <= i < |t| && t[i].0 == k ==> v == Some(t[i].1)
  {
    if t == [] then None
    else if t[0].0 == k then Some(t[0].1)
    else Lookup(t[1..], k)
  }

  /** A canonical chromosome name: one that starts with "chr" (case-sensitive). */
  predicate IsChromosomeEntry(e: (string, nat)) {
    StartsWith(e.0, "chr")
  }

  /** The entries of `t` whose name starts with "chr", in their original order. */
  function Chromosomes(t: Table): (c: Table)
    ensures |c| <= |t|
    ensures forall i :: 0 <= i < |c| ==> c[i] in t && StartsWith(c[i].0, "chr")
  {
    Filter(t, IsChromosomeEntry)
  }

  /** `d.pop(k)` on a key that is present: the entries without that name. */
  function Pop(d: Table, k: string): (r: Table)
    ensures forall i :: 0 <= i < |r| ==> r[i] in d && r[i].0 != k
    ensures forall i :: 0 <= i < |d| && d[i].0 != k ==> d[i] in r
  {
    Filter(d, NameIsNot(k))
  }

  function NameIsNot(k: string): ((string, nat)) -> bool {
    (e: (string, nat)) => e.0 != k
  }

  /** Popping a name that does not occur changes nothing. */
  lemma PopAbsent(s: Table, k: string)
    requires forall j :: 0 <= j < |s| ==> s[j].0 != k
    ensures Pop(s, k) == s
  {
    FilterAll(s, NameIsNot(k));
  }

  /** One iteration of the pop loop in `remove_scaffolds`: popping the
      scaffold at position `i` turns the partly filtered copy into the next one. */
  lemma PopScaffold(t: Table, i: nat)
    requires IsDict(t) && i < |t| && !IsChromosomeEntry(t[i])
    ensures Pop(Chromosomes(t[..i]) + t[i..], t[i].0) == Chromosomes(t[..i + 1]) + t[i + 1..]
  {
    var k := t[i].0;
    var done := Chromosomes(t[..i]);
    var single: Table := [t[i]];
    var rest := t[i + 1..];
    assert t[..i + 1] == t[..i] + single;
    assert done + t[i..] == (done + single) + rest;
    forall j | 0 <= j < |done| ensures done[j].0 != k {
      assert IsChromosomeEntry(done[j]);
    }
    PopAbsent(done, k);
    forall j | 0 <= j < |rest| ensures rest[j].0 != k {
      assert rest[j] == t[i + 1 + j];
    }
    PopAbsent(rest, k);
    FilterAppend(done + single, rest, NameIsNot(k));
    FilterAppend(done, single, NameIsNot(k));
    assert single[..0] == [];
    assert Pop(single, k) == [];
    assert Chromosomes(single) == [];
    ChromosomesAppend(t[..i], single);
  }

  /** One iteration of the pop loop in `remove_scaffolds` on a chromosome: nothing is popped. */
  lemma KeepChromosome(t: Table, i: nat)
    requires i < |t| && IsChromosomeEntry(t[i])
    ensures Chromosomes(t[..i]) + t[i..] == Chromosomes(t[..i + 1]) + t[i + 1..]
  {
    var single: Table := [t[i]];
    assert t[..i + 1] == t[..i] + single;
    ChromosomesAppend(t[..i], single);
    assert single[..0] == [];
    assert t[i..] == single + t[i + 1..];
  }

  /** The entries kept are exactly the input's entries whose name starts with "chr", lengths unchanged. */
  lemma ChromosomesMembers(t: Table)
    ensures forall i :: 0 <= i < |Chromosomes(t)| ==> Chromosomes(t)[i] in t && StartsWith(Chromosomes(t)[i].0, "chr")
    ensures forall i :: 0 <= i < |t| && StartsWith(t[i].0, "chr") ==> t[i] in Chromosomes(t)
  {
    var c := Chromosomes(t);
    forall i | 0 <= i < |c| ensures StartsWith(c[i].0, "chr") {
      assert IsChromosomeEntry(c[i]);
    }
    forall i | 0 <= i < |t| && StartsWith(t[i].0, "chr") ensures t[i] in c {
      assert IsChromosomeEntry(t[i]);
    }
  }

  /** Filtering keeps the names distinct. */
  lemma {:induction false} ChromosomesIsDict(t: Table)
    requires IsDict(t)
    ensures IsDict(Chromosomes(t))
    decreases |t|
  {
    if t != [] {
      var init := t[..|t| - 1];
      assert IsDict(init);
      ChromosomesIsDict(init);
      var c := Chromosomes(init);
      forall j | 0 <= j < |c| ensures c[j].0 != t[|t| - 1].0 {
        var m :| 0 <= m < |init| && init[m] == c[j];
      }
    }
  }

  /** Removing scaffolds commutes with concatenation, so the relative order of
      the chromosomes that remain is the input's. */
  lemma ChromosomesAppend(a: Table, b: Table)
    ensures Chromosomes(a + b) == Chromosomes(a) + Chromosomes(b)
  {
    FilterAppend(a, b, IsChromosomeEntry);
  }

  /** Removing scaffolds twice is removing them once. */
  lemma ChromosomesIdempotent(t: Table)
    ensures Chromosomes(Chromosomes(t)) == Chromosomes(t)
  {
    FilterIdempotent(t, IsChromosomeEntry);
  }

  /** Python truthiness of the optional chromosome argument: `None` and `""` mean "all". */
  predicate Requested(chrom: Option<string>) {
    chrom.Some? && chrom.value != ""
  }

  /** Restriction to one requested chromosome: a one-entry table with its
      length, or `None` where the lookup raises `KeyError`. */
  function Restrict(t: Table, chrom: Option<string>): (r: Option<Table>)
    ensures !Requested(chrom) ==> r == Some(t)
    ensures Requested(chrom) ==> (r.None? <==> !HasKey(t, chrom.value))
    ensures Requested(chrom) && r.Some? ==> |r.value| == 1 && r.value[0].0 == chrom.value && r.value[0] in t
    ensures r.Some? && IsDict(t) ==> IsDict(r.value)
  {
    if !Requested(chrom) then Some(t)
    else match Lookup(t, chrom.value)
      case None => None
      case Some(length) => Some([(chrom.value, length)])
  }

  /** Restriction looks the chromosome up after the scaffolds are removed, so
      requesting a scaffold fails even when the header lists it. */
  lemma RequestedScaffoldNotFound(t: Table, chrom: Option<string>)
    requires Requested(chrom) && !StartsWith(chrom.value, "chr")
    ensures Restrict(Chromosomes(t), chrom).None?
  {
    var c := Chromosomes(t);
    forall i | 0 <= i < |c| ensures c[i].0 != chrom.value {
      assert IsChromosomeEntry(c[i]);
    }
  }
}
