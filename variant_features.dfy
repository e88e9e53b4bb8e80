/**
 * The per-variant feature vectors collected at the start of
 * `generate_distances`: one pseudocounted frequency per sample, and the
 * pseudocounted depths of the samples that saw the variant.
 */
module VariantFeatures {
  import opened Wrappers

  /** One sample's (count, depth) for a variant. */
  type Abundance = (real, real)

  /** A variant of one contig of the matrix with its per-sample abundances, in traversal order. */
  datatype Entry = Entry(position: int, variant: string, abundances: seq<Abundance>)

  /** One row of `variant_info_all`. */
  datatype VariantInfo = VariantInfo(position: int, variant: string, depths: seq<real>, freqs: seq<real>, tid: int)

  datatype FeatureError =
    | MissingCoverage(tid: int)             // `coverages.get(tid)` fails
    | EmptyCoverage(tid: int)               // no maximum of an empty coverage vector
    | SampleOutOfRange(tid: int, sample: nat)

  /** The frequency feature of one sample: count + 1 when the sample saw the variant, 1 otherwise. */
  function FreqEntry(a: Abundance): real
  {
    if a.0 > 0.0 then a.0 + 1.0 else 1.0
  }

  function Freqs(v: seq<Abundance>): (r: seq<real>)
    ensures |r| == |v|
    ensures forall i :: 0 <= i < |v| ==> r[i] >= 1.0
    ensures forall i :: 0 <= i < |v| ==> (r[i] > 1.0 <==> v[i].0 > 0.0)
  {
    seq(|v|, i requires 0 <= i < |v| => FreqEntry(v[i]))
  }

  /** depth + 1 of every sample with a positive count, in sample order. */
  function Depths(v: seq<Abundance>): seq<real>
  {
    if |v| == 0 then []
    else
      var last := v[|v| - 1];
      Depths(v[..|v| - 1]) + (if last.0 > 0.0 then [last.1 + 1.0] else [])
  }

  /** The number of samples with a positive count. */
  function PositiveCount(v: seq<Abundance>): (n: nat)
    ensures n <= |v|
  {
    if |v| == 0 then 0
    else PositiveCount(v[..|v| - 1]) + (if v[|v| - 1].0 > 0.0 then 1 else 0)
  }

  /**
   * One depth per sample that saw the variant: the depth list is shorter than
   * the sample list exactly when some sample has a count of zero or less.
   */
  lemma {:induction false} DepthsLength(v: seq<Abundance>)
    ensures |Depths(v)| == PositiveCount(v)
    ensures |Depths(v)| < |v| <==> exists i :: 0 <= i < |v| && v[i].0 <= 0.0
  {
    if |v| > 0 {
      var init := v[..|v| - 1];
      DepthsLength(init);
      if exists i :: 0 <= i < |init| && init[i].0 <= 0.0 {
        var i :| 0 <= i < |init| && init[i].0 <= 0.0;
        assert v[i] == init[i];
      }
      if exists i :: 0 <= i < |v| && v[i].0 <= 0.0 {
        var i :| 0 <= i < |v| && v[i].0 <= 0.0;
        if i < |init| {
          assert init[i] == v[i];
        }
      }
    }
  }

  /** Every collected depth carries the pseudocount: it exceeds a nonnegative depth by 1. */
  lemma {:induction false} DepthsPseudocounted(v: seq<Abundance>)
    requires forall i :: 0 <= i < |v| ==> v[i].1 >= 0.0
    ensures forall j :: 0 <= j < |Depths(v)| ==> Depths(v)[j] >= 1.0
  {
    if |v| > 0 {
      DepthsPseudocounted(v[..|v| - 1]);
    }
  }

  /** Where the per-sample loop panics: a positive count at an index beyond the coverage or sample vectors. */
  predicate SamplesInRange(v: seq<Abundance>, coverageLen: nat, sampleCount: nat)
  {
    forall i :: 0 <= i < |v| && v[i].0 > 0.0 ==> i < coverageLen && i < sampleCount
  }

  /** Extending a prefix of the abundances by one sample extends both feature lists by that sample's features. */
  lemma PrefixStep(v: seq<Abundance>, i: nat, coverageLen: nat, sampleCount: nat)
    requires i < |v|
    ensures Depths(v[..i + 1]) == Depths(v[..i]) + (if v[i].0 > 0.0 then [v[i].1 + 1.0] else [])
    ensures Freqs(v[..i + 1]) == Freqs(v[..i]) + [FreqEntry(v[i])]
    ensures SamplesInRange(v[..i], coverageLen, sampleCount) && (v[i].0 > 0.0 ==> i < coverageLen && i < sampleCount)
            ==> SamplesInRange(v[..i + 1], coverageLen, sampleCount)
  {
    assert v[..i + 1][..i] == v[..i];
  }

  /** The per-sample loop over one variant's abundances. */
  method SampleFeatures(tid: int, v: seq<Abundance>, coverageLen: nat, sampleCount: nat)
    returns (r: Result<(seq<real>, seq<real>), FeatureError>)
    ensures r.Ok? <==> SamplesInRange(v, coverageLen, sampleCount)
    ensures r.Ok? ==> r.value == (Depths(v), Freqs(v))
    ensures r.Err? ==> r.error.SampleOutOfRange? && r.error.tid == tid
  {
    var depths: seq<real> := [];
    var freqs: seq<real> := [];
    var sampleIdx := 0;
    while sampleIdx < |v|
      invariant 0 <= sampleIdx <= |v|
      invariant depths == Depths(v[..sampleIdx])
      invariant freqs == Freqs(v[..sampleIdx])
      invariant SamplesInRange(v[..sampleIdx], coverageLen, sampleCount)
    {
      var a := v[sampleIdx];
      PrefixStep(v, sampleIdx, coverageLen, sampleCount);
      if a.0 > 0.0 {
        if sampleIdx >= coverageLen || sampleIdx >= sampleCount {
          return Err(SampleOutOfRange(tid, sampleIdx));
        }
        freqs := freqs + [a.0 + 1.0];
        depths := depths + [a.1 + 1.0];
      } else {
        freqs := freqs + [1.0];
      }
      sampleIdx := sampleIdx + 1;
    }
    assert v[..|v|] == v;
    return Ok((depths, freqs));
  }

  // ---------------------------------------------------------------------------
  // All variants.

  /** Variants whose key contains 'R' are not collected. */
  predicate Collected(e: Entry) { 'R' !in e.variant }

  /** The rows collected from one contig's entries, in traversal order, each tagged with the contig's key. */
  function FeatureRows(tid: int, entries: seq<Entry>): (rows: seq<VariantInfo>)
    ensures |rows| <= |entries|
  {
    if |entries| == 0 then []
    else
      var e := entries[|entries| - 1];
      FeatureRows(tid, entries[..|entries| - 1])
        + (if Collected(e) then [VariantInfo(e.position, e.variant, Depths(e.abundances), Freqs(e.abundances), tid)] else [])
  }

  /** The row collected from an entry without 'R' of contig tid. */
  predicate RowOf(tid: int, e: Entry, row: VariantInfo)
  {
    Collected(e) && row == VariantInfo(e.position, e.variant, Depths(e.abundances), Freqs(e.abundances), tid)
  }

  /** Every collected row comes from an entry without 'R', with that entry's features and the contig's key. */
  lemma {:induction false} FeatureRowsSound(tid: int, entries: seq<Entry>)
    ensures forall j :: 0 <= j < |FeatureRows(tid, entries)| ==>
              exists i :: 0 <= i < |entries| && RowOf(tid, entries[i], FeatureRows(tid, entries)[j])
  {
    if |entries| > 0 {
      var n := |entries| - 1;
      var init := entries[..n];
      var rows := FeatureRows(tid, entries);
      FeatureRowsSound(tid, init);
      assert rows == FeatureRows(tid, init) + (if Collected(entries[n]) then [VariantInfo(entries[n].position, entries[n].variant, Depths(entries[n].abundances), Freqs(entries[n].abundances), tid)] else []);
      forall j | 0 <= j < |rows|
        ensures exists i :: 0 <= i < |entries| && RowOf(tid, entries[i], rows[j])
      {
        if j < |FeatureRows(tid, init)| {
          var i :| 0 <= i < |init| && RowOf(tid, init[i], FeatureRows(tid, init)[j]);
          assert entries[i] == init[i];
          assert rows[j] == FeatureRows(tid, init)[j];
          assert RowOf(tid, entries[i], rows[j]);
        } else {
          assert RowOf(tid, entries[n], rows[j]);
        }
      }
    } else {
      assert FeatureRows(tid, entries) == [];
    }
  }

  /** The positions of the entries that are collected. */
  function CollectedIndices(entries: seq<Entry>): set<int>
  {
    set i | 0 <= i < |entries| && Collected(entries[i])
  }

  /** The collected positions of a sequence are those of its prefix, plus the last position if it is collected. */
  lemma CollectedIndicesStep(entries: seq<Entry>)
    requires |entries| > 0
    ensures var n := |entries| - 1;
            && n !in CollectedIndices(entries[..n])
            && CollectedIndices(entries) == CollectedIndices(entries[..n]) + (if Collected(entries[n]) then {n} else {})
  {
    var n := |entries| - 1;
    var init := entries[..n];
    var last := if Collected(entries[n]) then {n} else {};
    forall i ensures i in CollectedIndices(entries) <==> i in CollectedIndices(init) + last {
      if 0 <= i < n {
        assert init[i] == entries[i];
      }
    }
  }

  /** Every entry without 'R' gives exactly one row, so there is one row per collected variant. */
  lemma {:induction false} FeatureRowsCount(tid: int, entries: seq<Entry>)
    ensures |FeatureRows(tid, entries)| == |CollectedIndices(entries)|
  {
    if |entries| > 0 {
      var n := |entries| - 1;
      FeatureRowsCount(tid, entries[..n]);
      CollectedIndicesStep(entries);
    } else {
      assert CollectedIndices(entries) == {};
    }
  }

  // ---------------------------------------------------------------------------
  // The contig loop.

  /**
   * The length of a contig's coverage vector: looking the vector up panics
   * when the contig has none, and taking its maximum panics when it is empty.
   */
  function CoverageLength(coverages: map<int, seq<real>>, tid: int): (r: Result<nat, FeatureError>)
    ensures r.Ok? <==> tid in coverages && |coverages[tid]| > 0
    ensures r.Ok? ==> r.value == |coverages[tid]|
    ensures r.Err? ==> r.error == (if tid in coverages then EmptyCoverage(tid) else MissingCoverage(tid))
  {
    if tid !in coverages then Err(MissingCoverage(tid))
    else if |coverages[tid]| == 0 then Err(EmptyCoverage(tid))
    else Ok(|coverages[tid]|)
  }

  /** A contig's variants are collected without a panic. */
  predicate ContigFits(tid: int, entries: seq<Entry>, coverages: map<int, seq<real>>, sampleCount: nat)
  {
    && tid in coverages && |coverages[tid]| > 0
    && forall k :: 0 <= k < |entries| && Collected(entries[k]) ==>
         SamplesInRange(entries[k].abundances, |coverages[tid]|, sampleCount)
  }

  /** One contig of the loop: its coverage lookup, then every variant of every position. */
  method ContigFeatures(tid: int, entries: seq<Entry>, coverages: map<int, seq<real>>, sampleCount: nat)
    returns (r: Result<seq<VariantInfo>, FeatureError>)
    ensures r.Ok? <==> ContigFits(tid, entries, coverages, sampleCount)
    ensures r.Ok? ==> r.value == FeatureRows(tid, entries)
  {
    var coverage := CoverageLength(coverages, tid);
    if coverage.Err? {
      return Err(coverage.error);
    }
    var rows: seq<VariantInfo> := [];
    var k := 0;
    while k < |entries|
      invariant 0 <= k <= |entries|
      invariant rows == FeatureRows(tid, entries[..k])
      invariant forall j :: 0 <= j < k && Collected(entries[j]) ==>
                  SamplesInRange(entries[j].abundances, coverage.value, sampleCount)
    {
      var e := entries[k];
      assert entries[..k + 1][..k] == entries[..k];
      if Collected(e) {
        var features := SampleFeatures(tid, e.abundances, coverage.value, sampleCount);
        if features.Err? {
          return Err(features.error);
        }
        rows := rows + [VariantInfo(e.position, e.variant, features.value.0, features.value.1, tid)];
      }
      k := k + 1;
    }
    assert entries[..k] == entries;
    return Ok(rows);
  }

  /** The rows of every contig, contig after contig. */
  function AllRows(contigs: seq<(int, seq<Entry>)>): seq<VariantInfo>
  {
    if |contigs| == 0 then [] else AllRows(contigs[..|contigs| - 1]) + FeatureRows(contigs[|contigs| - 1].0, contigs[|contigs| - 1].1)
  }

  /**
   * The loop over the matrix's contigs, each with its variant entries in
   * traversal order. It panics exactly when some contig lacks a non-empty
   * coverage vector or has a collected variant whose positive counts reach
   * past the coverage or sample vectors; otherwise it collects one row per
   * variant without 'R'.
   */
  method CollectFeatures(contigs: seq<(int, seq<Entry>)>, coverages: map<int, seq<real>>, sampleCount: nat)
    returns (r: Result<seq<VariantInfo>, FeatureError>)
    ensures r.Ok? <==> forall i :: 0 <= i < |contigs| ==> ContigFits(contigs[i].0, contigs[i].1, coverages, sampleCount)
    ensures r.Ok? ==> r.value == AllRows(contigs)
  {
    var rows: seq<VariantInfo> := [];
    var i := 0;
    while i < |contigs|
      invariant 0 <= i <= |contigs|
      invariant rows == AllRows(contigs[..i])
      invariant forall j :: 0 <= j < i ==> ContigFits(contigs[j].0, contigs[j].1, coverages, sampleCount)
    {
      var one := ContigFeatures(contigs[i].0, contigs[i].1, coverages, sampleCount);
      if one.Err? {
        return Err(one.error);
      }
      assert contigs[..i + 1][..i] == contigs[..i];
      rows := rows + one.value;
      i := i + 1;
    }
    assert contigs[..i] == contigs;
    return Ok(rows);
  }
}
