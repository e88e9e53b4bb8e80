/**
 * The `PileupContigMatrix` itself: its sixteen fields, the operations that
 * fill it sample by sample (`new_matrix`, `setup`, `add_sample`,
 * `add_kmers`, `add_contig`), and what they promise about each field.
 */
module ContigMatrix {
  import opened Wrappers
  import opened PileupMatrix
  import RootDiscovery

  /** The `PileupContigMatrix` variant of the `PileupMatrix` enum: the matrix's fields as one value. */
  datatype MatrixState = PileupContigMatrix(
    coverages: Vectors,
    averageGenotypes: Vectors,
    variances: Vectors,
    variants: map<int, ContigVariants>,
    snpsMap: map<int, Support<char>>,
    indelsMap: map<int, Support<string>>,
    contigs: map<int, seq<char>>,
    targetNames: map<int, string>,
    targetLengths: map<int, real>,
    sampleNames: seq<string>,
    kfrequencies: KmerTable,
    dendrogram: RootDiscovery.Dendrogram,
    clusters: map<int, map<int, map<string, (int, nat)>>>,
    clustersMean: map<int, real>,
    variantCounts: map<nat, map<int, nat>>,
    variantSums: map<nat, map<int, Sums>>)

  /** The state of a fresh matrix: every map and list empty, an empty dendrogram. */
  function EmptyState(): MatrixState
  {
    PileupContigMatrix(map[], map[], map[], map[], map[], map[], map[], map[], map[], [], map[], [], map[], map[], map[], map[])
  }

  // ---------------------------------------------------------------------------
  // `add_contig` as a function of the state.

  /** The three sum rows the first write for a contig with variants creates. */
  function FreshSums(totalVariants: nat): (r: Sums)
    ensures |r| == 3 && forall i :: 0 <= i < 3 ==> r[i] == Zeros(totalVariants)
  {
    [Zeros(totalVariants), Zeros(totalVariants), Zeros(totalVariants)]
  }

  /** The sum rows of a contig without variants. */
  const NoVariantSums: Sums := [[0.0], [0.0], [0.0]]

  /** The sum rows the loop over positions starts from. */
  function StartSums(m: MatrixState, stats: PileupStats, sampleIdx: nat): Sums
    requires stats.totalVariants > 0
  {
    Get(Get(m.variantSums, sampleIdx, map[]), stats.tid, FreshSums(stats.totalVariants))
  }

  /** The contig's variants the loop over positions starts from. */
  function StartVariants(m: MatrixState, stats: PileupStats): ContigVariants
  {
    Get(m.variants, stats.tid, map[])
  }

  /** The variants, sums and counts tables after recording one contig of one sample; None where a write panics. */
  function RecordContig(m: MatrixState, stats: PileupStats, sampleCount: nat, sampleIdx: nat)
    : (r: Option<(map<int, ContigVariants>, map<nat, map<int, Sums>>, map<nat, map<int, nat>>)>)
    ensures r.Some? ==> r.value.0.Keys == m.variants.Keys + {stats.tid}
    ensures r.Some? ==> sampleIdx in r.value.1 && stats.tid in r.value.1[sampleIdx]
    ensures r.Some? ==> sampleIdx in r.value.2 && stats.tid in r.value.2[sampleIdx]
                        && r.value.2[sampleIdx][stats.tid] == (if stats.totalVariants > 0 then |stats.variantAbundances| else 0)
    ensures stats.totalVariants <= 0 ==> r.Some?
  {
    var tid := stats.tid;
    var sampleSums := Get(m.variantSums, sampleIdx, map[]);
    var sampleCounts := Get(m.variantCounts, sampleIdx, map[]);
    if stats.totalVariants > 0 then
      match RecordPositions(StartVariants(m, stats), StartSums(m, stats, sampleIdx), stats.variantAbundances, sampleCount, sampleIdx)
      case None => None
      case Some(r) =>
        Some((m.variants[tid := r.0],
              m.variantSums[sampleIdx := sampleSums[tid := r.1]],
              m.variantCounts[sampleIdx := sampleCounts[tid := |stats.variantAbundances|]]))
    else
      Some((m.variants[tid := StartVariants(m, stats)],
            m.variantSums[sampleIdx := Keep(sampleSums, tid, NoVariantSums)],
            m.variantCounts[sampleIdx := sampleCounts[tid := 0]]))
  }

  /** The three per-sample slots of the contig have room for the sample. */
  predicate SlotsFit(m: MatrixState, tid: int, sampleCount: nat, sampleIdx: nat)
  {
    && SlotFits(m.averageGenotypes, tid, sampleCount, sampleIdx)
    && SlotFits(m.variances, tid, sampleCount, sampleIdx)
    && SlotFits(m.coverages, tid, sampleCount, sampleIdx)
  }

  /** The state after `add_contig`, or None where the source panics. */
  function AddContigSpec(m: MatrixState, stats: PileupStats, sampleCount: nat, sampleIdx: nat, contig: seq<char>)
    : (r: Option<MatrixState>)
    ensures r.Some? ==> SlotsFit(m, stats.tid, sampleCount, sampleIdx)
    ensures r.Some? ==> && r.value.sampleNames == m.sampleNames && r.value.kfrequencies == m.kfrequencies
                        && r.value.dendrogram == m.dendrogram && r.value.clusters == m.clusters
                        && r.value.clustersMean == m.clustersMean
  {
    var tid := stats.tid;
    if !SlotsFit(m, tid, sampleCount, sampleIdx) then None
    else match RecordContig(m, stats, sampleCount, sampleIdx)
      case None => None
      case Some(t) =>
        Some(m.(
          averageGenotypes := SetSlot(m.averageGenotypes, tid, sampleCount, sampleIdx, stats.meanGenotypes),
          variances := SetSlot(m.variances, tid, sampleCount, sampleIdx, stats.variance),
          coverages := SetSlot(m.coverages, tid, sampleCount, sampleIdx, stats.coverage),
          targetNames := Keep(m.targetNames, tid, stats.targetName),
          targetLengths := Keep(m.targetLengths, tid, stats.targetLen),
          variants := t.0,
          variantSums := t.1,
          variantCounts := t.2,
          indelsMap := m.indelsMap[tid := NestedUnion(Get(m.indelsMap, tid, map[]), stats.indels)],
          snpsMap := m.snpsMap[tid := NestedUnion(Get(m.snpsMap, tid, map[]), stats.nucfrequency)],
          contigs := Keep(m.contigs, tid, contig)))
  }

  /**
   * `setup` empties the per-contig tables, the sample names and the k-mer
   * table; variances, the counts and sums, the dendrogram and the
   * clusters keep their contents.
   */
  function SetupState(m: MatrixState): MatrixState
  {
    PileupContigMatrix(map[], map[], m.variances, map[], map[], map[], map[], map[], map[], [], map[],
                m.dendrogram, m.clusters, m.clustersMean, m.variantCounts, m.variantSums)
  }

  // ---------------------------------------------------------------------------
  // What `add_contig` promises.

  /** The fields `add_contig` writes, one equation each. */
  lemma AddContigParts(m: MatrixState, stats: PileupStats, sampleCount: nat, sampleIdx: nat, contig: seq<char>)
    requires AddContigSpec(m, stats, sampleCount, sampleIdx, contig).Some?
    ensures SlotsFit(m, stats.tid, sampleCount, sampleIdx)
    ensures RecordContig(m, stats, sampleCount, sampleIdx).Some?
    ensures var r := AddContigSpec(m, stats, sampleCount, sampleIdx, contig).value;
            var t := RecordContig(m, stats, sampleCount, sampleIdx).value;
            && r.variants == t.0 && r.variantSums == t.1 && r.variantCounts == t.2
  {
  }

  /** The other fields `add_contig` writes, one equation each. */
  lemma AddContigWrites(m: MatrixState, stats: PileupStats, sampleCount: nat, sampleIdx: nat, contig: seq<char>)
    requires AddContigSpec(m, stats, sampleCount, sampleIdx, contig).Some?
    ensures SlotsFit(m, stats.tid, sampleCount, sampleIdx)
    ensures var r := AddContigSpec(m, stats, sampleCount, sampleIdx, contig).value;
            && r.averageGenotypes == SetSlot(m.averageGenotypes, stats.tid, sampleCount, sampleIdx, stats.meanGenotypes)
            && r.variances == SetSlot(m.variances, stats.tid, sampleCount, sampleIdx, stats.variance)
            && r.coverages == SetSlot(m.coverages, stats.tid, sampleCount, sampleIdx, stats.coverage)
            && r.targetNames == Keep(m.targetNames, stats.tid, stats.targetName)
            && r.targetLengths == Keep(m.targetLengths, stats.tid, stats.targetLen)
            && r.contigs == Keep(m.contigs, stats.tid, contig)
            && r.indelsMap == m.indelsMap[stats.tid := NestedUnion(Get(m.indelsMap, stats.tid, map[]), stats.indels)]
            && r.snpsMap == m.snpsMap[stats.tid := NestedUnion(Get(m.snpsMap, stats.tid, map[]), stats.nucfrequency)]
  {
  }

  /** The entries the variant part writes for a contig with variants, one equation each. */
  lemma RecordContigParts(m: MatrixState, stats: PileupStats, sampleCount: nat, sampleIdx: nat)
    requires stats.totalVariants > 0
    requires RecordContig(m, stats, sampleCount, sampleIdx).Some?
    ensures var rec := RecordPositions(StartVariants(m, stats), StartSums(m, stats, sampleIdx), stats.variantAbundances, sampleCount, sampleIdx);
            var t := RecordContig(m, stats, sampleCount, sampleIdx).value;
            && rec.Some?
            && stats.tid in t.0 && t.0[stats.tid] == rec.value.0
            && sampleIdx in t.1 && stats.tid in t.1[sampleIdx] && t.1[sampleIdx][stats.tid] == rec.value.1
            && sampleIdx in t.2 && stats.tid in t.2[sampleIdx] && t.2[sampleIdx][stats.tid] == |stats.variantAbundances|
  {
  }

  /**
   * `add_contig` succeeds exactly when the contig's three per-sample vectors
   * have a slot for the sample and, for a contig with variants, every
   * variant row and every column of the sums has one too.
   */
  lemma AddContigSucceeds(m: MatrixState, stats: PileupStats, sampleCount: nat, sampleIdx: nat, contig: seq<char>)
    requires WellKeyed(stats.variantAbundances)
    ensures AddContigSpec(m, stats, sampleCount, sampleIdx, contig).Some?
            <==> && SlotsFit(m, stats.tid, sampleCount, sampleIdx)
                 && (stats.totalVariants > 0 ==>
                       PositionsFit(StartVariants(m, stats), StartSums(m, stats, sampleIdx), stats.variantAbundances, sampleCount, sampleIdx))
  {
    if stats.totalVariants > 0 {
      RecordPositionsSucceeds(StartVariants(m, stats), StartSums(m, stats, sampleIdx), stats.variantAbundances, sampleCount, sampleIdx);
    }
  }

  /**
   * One per-sample slot written: the contig's vector holds `x` for the
   * sample, keeps every other sample's value (zeros in a fresh vector of
   * `sampleCount` slots), and no other contig's vector changes.
   */
  predicate SlotWritten(before: Vectors, after: Vectors, tid: int, sampleCount: nat, sampleIdx: nat, x: real)
  {
    && after.Keys == before.Keys + {tid}
    && sampleIdx < |after[tid]| && after[tid][sampleIdx] == x
    && |after[tid]| == (if tid in before then |before[tid]| else sampleCount)
    && (forall j :: 0 <= j < |after[tid]| && j != sampleIdx ==>
          after[tid][j] == (if tid in before then before[tid][j] else 0.0))
    && (forall t :: t in before && t != tid ==> after[t] == before[t])
  }

  /** `add_contig` writes the mean genotype, variance and coverage into the sample's slots and nowhere else. */
  lemma AddContigSlots(m: MatrixState, stats: PileupStats, sampleCount: nat, sampleIdx: nat, contig: seq<char>)
    requires AddContigSpec(m, stats, sampleCount, sampleIdx, contig).Some?
    ensures var r := AddContigSpec(m, stats, sampleCount, sampleIdx, contig).value;
            && SlotWritten(m.averageGenotypes, r.averageGenotypes, stats.tid, sampleCount, sampleIdx, stats.meanGenotypes)
            && SlotWritten(m.variances, r.variances, stats.tid, sampleCount, sampleIdx, stats.variance)
            && SlotWritten(m.coverages, r.coverages, stats.tid, sampleCount, sampleIdx, stats.coverage)
  {
    AddContigWrites(m, stats, sampleCount, sampleIdx, contig);
    SetSlotWritten(m.averageGenotypes, stats.tid, sampleCount, sampleIdx, stats.meanGenotypes);
    SetSlotWritten(m.variances, stats.tid, sampleCount, sampleIdx, stats.variance);
    SetSlotWritten(m.coverages, stats.tid, sampleCount, sampleIdx, stats.coverage);
  }

  lemma SetSlotWritten(vs: Vectors, tid: int, sampleCount: nat, sampleIdx: nat, x: real)
    requires SlotFits(vs, tid, sampleCount, sampleIdx)
    ensures SlotWritten(vs, SetSlot(vs, tid, sampleCount, sampleIdx, x), tid, sampleCount, sampleIdx, x)
  {
  }

  /**
   * The target name, length and contig bytes keep their first-written value,
   * and `add_contig` leaves the sample names, the k-mer table, the
   * dendrogram and the clusters alone.
   */
  lemma AddContigFirstWritten(m: MatrixState, stats: PileupStats, sampleCount: nat, sampleIdx: nat, contig: seq<char>)
    requires AddContigSpec(m, stats, sampleCount, sampleIdx, contig).Some?
    ensures var r := AddContigSpec(m, stats, sampleCount, sampleIdx, contig).value;
            && r.targetNames.Keys == m.targetNames.Keys + {stats.tid}
            && r.targetNames[stats.tid] == (if stats.tid in m.targetNames then m.targetNames[stats.tid] else stats.targetName)
            && r.targetLengths.Keys == m.targetLengths.Keys + {stats.tid}
            && r.targetLengths[stats.tid] == (if stats.tid in m.targetLengths then m.targetLengths[stats.tid] else stats.targetLen)
            && r.contigs.Keys == m.contigs.Keys + {stats.tid}
            && r.contigs[stats.tid] == (if stats.tid in m.contigs then m.contigs[stats.tid] else contig)
            && (forall t :: t in m.targetNames ==> r.targetNames[t] == m.targetNames[t])
            && (forall t :: t in m.targetLengths ==> r.targetLengths[t] == m.targetLengths[t])
            && (forall t :: t in m.contigs ==> r.contigs[t] == m.contigs[t])
            && r.sampleNames == m.sampleNames && r.kfrequencies == m.kfrequencies
            && r.dendrogram == m.dendrogram && r.clusters == m.clusters && r.clustersMean == m.clustersMean
  {
    AddContigWrites(m, stats, sampleCount, sampleIdx, contig);
  }

  /**
   * With variants, column `j` of the sample's sum rows for the contig holds
   * the `j`-th position's frequencies and depth, and the variant count is
   * the number of positions.
   */
  lemma AddContigSums(m: MatrixState, stats: PileupStats, sampleCount: nat, sampleIdx: nat, contig: seq<char>)
    requires stats.totalVariants > 0
    requires AddContigSpec(m, stats, sampleCount, sampleIdx, contig).Some?
    ensures var r := AddContigSpec(m, stats, sampleCount, sampleIdx, contig).value;
            var positions := stats.variantAbundances;
            var start := StartSums(m, stats, sampleIdx);
            && sampleIdx in r.variantSums && stats.tid in r.variantSums[sampleIdx]
            && sampleIdx in r.variantCounts && stats.tid in r.variantCounts[sampleIdx]
            && r.variantCounts[sampleIdx][stats.tid] == |positions|
            && var sums := r.variantSums[sampleIdx][stats.tid];
               && |sums| == |start|
               && (forall j :: 0 <= j < |positions| ==>
                     && ColumnFits(sums, j)
                     && sums[0][j] == Column(positions[j].1).0
                     && sums[1][j] == Column(positions[j].1).1
                     && sums[2][j] == Column(positions[j].1).2)
  {
    AddContigParts(m, stats, sampleCount, sampleIdx, contig);
    RecordContigParts(m, stats, sampleCount, sampleIdx);
    RecordPositionsSums(StartVariants(m, stats), StartSums(m, stats, sampleIdx), stats.variantAbundances, sampleCount, sampleIdx);
  }

  /**
   * With variants, every (variant, abundance) listed at a position is in
   * the sample's slot of that variant's row.
   */
  lemma AddContigVariants(m: MatrixState, stats: PileupStats, sampleCount: nat, sampleIdx: nat, contig: seq<char>)
    requires stats.totalVariants > 0 && WellKeyed(stats.variantAbundances)
    requires AddContigSpec(m, stats, sampleCount, sampleIdx, contig).Some?
    ensures var r := AddContigSpec(m, stats, sampleCount, sampleIdx, contig).value;
            var positions := stats.variantAbundances;
            && stats.tid in r.variants
            && forall j, k :: 0 <= j < |positions| && 0 <= k < |positions[j].1| ==>
                 && positions[j].0 in r.variants[stats.tid]
                 && positions[j].1[k].0 in r.variants[stats.tid][positions[j].0]
                 && sampleIdx < |r.variants[stats.tid][positions[j].0][positions[j].1[k].0]|
                 && r.variants[stats.tid][positions[j].0][positions[j].1[k].0][sampleIdx] == positions[j].1[k].1
  {
    var cv := StartVariants(m, stats);
    var positions := stats.variantAbundances;
    AddContigParts(m, stats, sampleCount, sampleIdx, contig);
    RecordContigParts(m, stats, sampleCount, sampleIdx);
    RecordPositionsVariants(cv, StartSums(m, stats, sampleIdx), positions, sampleCount, sampleIdx);
    forall j | 0 <= j < |positions| {
      RecordedWrites(PosRows(cv, positions[j].0), positions[j].1, sampleCount, sampleIdx);
    }
  }

  /**
   * Without variants no position is added, the sum rows are three rows of
   * one 0 unless the sample already has rows for the contig, and the
   * variant count is 0.
   */
  lemma AddContigNoVariants(m: MatrixState, stats: PileupStats, sampleCount: nat, sampleIdx: nat, contig: seq<char>)
    requires stats.totalVariants <= 0
    requires AddContigSpec(m, stats, sampleCount, sampleIdx, contig).Some?
    ensures var r := AddContigSpec(m, stats, sampleCount, sampleIdx, contig).value;
            && r.variants == m.variants[stats.tid := StartVariants(m, stats)]
            && sampleIdx in r.variantSums && stats.tid in r.variantSums[sampleIdx]
            && r.variantSums[sampleIdx][stats.tid] == Get(Get(m.variantSums, sampleIdx, map[]), stats.tid, [[0.0], [0.0], [0.0]])
            && sampleIdx in r.variantCounts && stats.tid in r.variantCounts[sampleIdx]
            && r.variantCounts[sampleIdx][stats.tid] == 0
  {
    AddContigParts(m, stats, sampleCount, sampleIdx, contig);
  }

  /**
   * After `add_contig` a read supports an allele at a position of the
   * contig exactly when it did before or does in the sample's input, for
   * indels and SNPs alike.
   */
  lemma AddContigReadSupport(m: MatrixState, stats: PileupStats, sampleCount: nat, sampleIdx: nat, contig: seq<char>,
                             pos: int, indel: string, snp: char, read: int)
    requires AddContigSpec(m, stats, sampleCount, sampleIdx, contig).Some?
    ensures var r := AddContigSpec(m, stats, sampleCount, sampleIdx, contig).value;
            var indels := r.indelsMap[stats.tid];
            var snps := r.snpsMap[stats.tid];
            && stats.tid in r.indelsMap && stats.tid in r.snpsMap
            && ((pos in indels && indel in indels[pos] && read in indels[pos][indel])
                <==> (read in Reads(AllelesAt(Get(m.indelsMap, stats.tid, map[]), pos), indel)
                      || read in Reads(AllelesAt(stats.indels, pos), indel)))
            && ((pos in snps && snp in snps[pos] && read in snps[pos][snp])
                <==> (read in Reads(AllelesAt(Get(m.snpsMap, stats.tid, map[]), pos), snp)
                      || read in Reads(AllelesAt(stats.nucfrequency, pos), snp)))
  {
    AddContigWrites(m, stats, sampleCount, sampleIdx, contig);
    NestedUnionMembership(Get(m.indelsMap, stats.tid, map[]), stats.indels, pos, indel, read);
    NestedUnionMembership(Get(m.snpsMap, stats.tid, map[]), stats.nucfrequency, pos, snp, read);
  }

  /**
   * A repeat call for the same contig and sample: its slot values replace
   * the first call's, as if that call had not written them.
   */
  lemma AddContigRepeatSlots(m: MatrixState, first: PileupStats, second: PileupStats, sampleCount: nat, sampleIdx: nat,
                             contig1: seq<char>, contig2: seq<char>, once: MatrixState, twice: MatrixState)
    requires first.tid == second.tid
    requires AddContigSpec(m, first, sampleCount, sampleIdx, contig1) == Some(once)
    requires AddContigSpec(once, second, sampleCount, sampleIdx, contig2) == Some(twice)
    ensures twice.averageGenotypes == SetSlot(m.averageGenotypes, first.tid, sampleCount, sampleIdx, second.meanGenotypes)
    ensures twice.variances == SetSlot(m.variances, first.tid, sampleCount, sampleIdx, second.variance)
    ensures twice.coverages == SetSlot(m.coverages, first.tid, sampleCount, sampleIdx, second.coverage)
  {
    var tid := first.tid;
    AddContigWrites(m, first, sampleCount, sampleIdx, contig1);
    AddContigWrites(once, second, sampleCount, sampleIdx, contig2);
    SetSlotOverwrites(m.averageGenotypes, tid, sampleCount, sampleIdx, first.meanGenotypes, second.meanGenotypes);
    SetSlotOverwrites(m.variances, tid, sampleCount, sampleIdx, first.variance, second.variance);
    SetSlotOverwrites(m.coverages, tid, sampleCount, sampleIdx, first.coverage, second.coverage);
  }

  /** A repeat call for the same contig keeps the first call's name, length and bytes. */
  lemma AddContigRepeatKeeps(m: MatrixState, first: PileupStats, second: PileupStats, sampleCount: nat, sampleIdx: nat,
                             contig1: seq<char>, contig2: seq<char>, once: MatrixState, twice: MatrixState)
    requires first.tid == second.tid
    requires AddContigSpec(m, first, sampleCount, sampleIdx, contig1) == Some(once)
    requires AddContigSpec(once, second, sampleCount, sampleIdx, contig2) == Some(twice)
    ensures twice.targetNames == once.targetNames
    ensures twice.targetLengths == once.targetLengths
    ensures twice.contigs == once.contigs
  {
    var tid := first.tid;
    AddContigWrites(m, first, sampleCount, sampleIdx, contig1);
    AddContigWrites(once, second, sampleCount, sampleIdx, contig2);
    KeepFirstWins(m.targetNames, tid, first.targetName, second.targetName);
    KeepFirstWins(m.targetLengths, tid, first.targetLen, second.targetLen);
    KeepFirstWins(m.contigs, tid, contig1, contig2);
  }

  /** Merging the same read support for the same contig again changes nothing. */
  lemma AddContigRepeatMerges(m: MatrixState, first: PileupStats, second: PileupStats, sampleCount: nat, sampleIdx: nat,
                              contig1: seq<char>, contig2: seq<char>, once: MatrixState, twice: MatrixState)
    requires first.tid == second.tid
    requires AddContigSpec(m, first, sampleCount, sampleIdx, contig1) == Some(once)
    requires AddContigSpec(once, second, sampleCount, sampleIdx, contig2) == Some(twice)
    ensures second.indels == first.indels ==> twice.indelsMap == once.indelsMap
    ensures second.nucfrequency == first.nucfrequency ==> twice.snpsMap == once.snpsMap
  {
    var tid := first.tid;
    AddContigWrites(m, first, sampleCount, sampleIdx, contig1);
    AddContigWrites(once, second, sampleCount, sampleIdx, contig2);
    MergeAgain(m.indelsMap, tid, first.indels);
    MergeAgain(m.snpsMap, tid, first.nucfrequency);
  }

  /** A contig's read support merged with the same input twice is the support merged once. */
  lemma MergeAgain<K>(table: map<int, Support<K>>, tid: int, incoming: Support<K>)
    ensures var once := table[tid := NestedUnion(Get(table, tid, map[]), incoming)];
            once[tid := NestedUnion(Get(once, tid, map[]), incoming)] == once
  {
    var once := table[tid := NestedUnion(Get(table, tid, map[]), incoming)];
    NestedUnionIdempotent(Get(table, tid, map[]), incoming);
    UpdateSame(once, tid);
  }

  lemma UpdateSame<K, V>(m: map<K, V>, k: K)
    requires k in m
    ensures m[k := m[k]] == m
  {
  }

  // ---------------------------------------------------------------------------
  // The matrix.

  /**
   * The place `&mut self` points to: it holds the enum value, and each
   * operation replaces the fields it changes.
   */
  class Matrix {
    var state: MatrixState

    /** `new_matrix`: every field empty. */
    constructor NewMatrix()
      ensures state == EmptyState()
    {
      state := EmptyState();
    }

    /**
     * `setup` empties the per-contig tables, the sample names and the k-mer
     * table; variances, the counts and sums, the dendrogram and the
     * clusters keep their contents.
     */
    method Setup()
      modifies this
      ensures state == SetupState(old(state))
    {
      state := state.(coverages := map[], averageGenotypes := map[], variants := map[], snpsMap := map[],
                      indelsMap := map[], contigs := map[], targetNames := map[], targetLengths := map[],
                      sampleNames := [], kfrequencies := map[]);
    }

    /** `add_sample` appends the name; the sample's index is the old number of samples. */
    method AddSample(name: string)
      modifies this
      ensures state == old(state).(sampleNames := old(state).sampleNames + [name])
    {
      state := state.(sampleNames := state.sampleNames + [name]);
    }

    /**
     * `add_kmers` for a contig that has no target length yet writes each
     * count into the contig's column, and is a no-op otherwise; `ok` is
     * false where a column index panics.
     */
    method AddKmers(tid: int, numberOfContigs: nat, kFreq: map<seq<char>, nat>) returns (ok: bool)
      modifies this
      ensures tid in old(state).targetLengths ==> ok && state == old(state)
      ensures tid !in old(state).targetLengths ==>
                (ok <==> KmersFit(old(state).kfrequencies, kFreq, tid, numberOfContigs))
      ensures tid !in old(state).targetLengths && ok ==>
                state == old(state).(kfrequencies := WithCounts(old(state).kfrequencies, kFreq, tid, numberOfContigs))
    {
      if tid in state.targetLengths {
        return true;
      }
      var table;
      ok, table := CountKmers(state.kfrequencies, kFreq, tid, numberOfContigs);
      if ok {
        state := state.(kfrequencies := table);
      }
    }

    /** `add_contig`, proved against `AddContigSpec`; `ok` is false where the source panics. */
    method AddContig(stats: PileupStats, sampleCount: nat, sampleIdx: nat, contig: seq<char>) returns (ok: bool)
      modifies this
      ensures ok <==> AddContigSpec(old(state), stats, sampleCount, sampleIdx, contig).Some?
      ensures ok ==> state == AddContigSpec(old(state), stats, sampleCount, sampleIdx, contig).value
    {
      var m := state;
      var tid := stats.tid;
      if !SlotsFit(m, tid, sampleCount, sampleIdx) {
        return false;
      }
      var recorded := RecordContigMethod(m, stats, sampleCount, sampleIdx);
      if recorded.None? {
        return false;
      }
      var indels := MergeSupport(Get(m.indelsMap, tid, map[]), stats.indels);
      var snps := MergeSupport(Get(m.snpsMap, tid, map[]), stats.nucfrequency);
      state := m.(
        averageGenotypes := SetSlot(m.averageGenotypes, tid, sampleCount, sampleIdx, stats.meanGenotypes),
        variances := SetSlot(m.variances, tid, sampleCount, sampleIdx, stats.variance),
        coverages := SetSlot(m.coverages, tid, sampleCount, sampleIdx, stats.coverage),
        targetNames := Keep(m.targetNames, tid, stats.targetName),
        targetLengths := Keep(m.targetLengths, tid, stats.targetLen),
        variants := recorded.value.0,
        variantSums := recorded.value.1,
        variantCounts := recorded.value.2,
        indelsMap := m.indelsMap[tid := indels],
        snpsMap := m.snpsMap[tid := snps],
        contigs := Keep(m.contigs, tid, contig));
      ok := true;
    }
  }

  /** The variant part of `add_contig`: the loop over positions and the sums and counts it leaves. */
  method RecordContigMethod(m: MatrixState, stats: PileupStats, sampleCount: nat, sampleIdx: nat)
    returns (r: Option<(map<int, ContigVariants>, map<nat, map<int, Sums>>, map<nat, map<int, nat>>)>)
    ensures r == RecordContig(m, stats, sampleCount, sampleIdx)
  {
    var tid := stats.tid;
    var contigVariants := Get(m.variants, tid, map[]);
    var sampleSums := Get(m.variantSums, sampleIdx, map[]);
    var sampleCounts := Get(m.variantCounts, sampleIdx, map[]);
    if stats.totalVariants > 0 {
      var rows := Get(sampleSums, tid, FreshSums(stats.totalVariants));
      var fits, cv, sums, count := RecordVariants(contigVariants, rows, stats.variantAbundances, sampleCount, sampleIdx);
      if !fits {
        return None;
      }
      return Some((m.variants[tid := cv], m.variantSums[sampleIdx := sampleSums[tid := sums]],
                   m.variantCounts[sampleIdx := sampleCounts[tid := count]]));
    }
    return Some((m.variants[tid := contigVariants], m.variantSums[sampleIdx := Keep(sampleSums, tid, NoVariantSums)],
                 m.variantCounts[sampleIdx := sampleCounts[tid := 0]]));
  }
}
