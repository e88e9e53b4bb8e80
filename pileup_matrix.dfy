/**
 * The population matrix that collects per-contig pileup statistics from
 * every sample: per-sample slots for coverage, variance and mean genotype,
 * per-variant (count, depth) rows, the pseudocounted sum rows, the k-mer
 * table and the read-support maps of SNPs and indels.
 *
 * `f32` values are reals, hash-map iteration orders are given sequences or
 * chosen keys, and a panic of the source is a `false` result (the process
 * aborts, so the state it leaves behind is not described).
 */
module PileupMatrix {
  import opened Wrappers
  import RootDiscovery

  /** One sample's (count, depth) for a variant. */
  type Abundance = (real, real)

  /** contig id -> one value per sample. */
  type Vectors = map<int, seq<real>>

  /** variant -> one (count, depth) per sample. */
  type SampleRows = map<string, seq<Abundance>>

  /** position -> variant rows. */
  type ContigVariants = map<int, SampleRows>

  /** position -> allele -> ids of the reads that support it. */
  type Support<K> = map<int, map<K, set<int>>>

  /** The three sum rows of a contig: variant frequency, depth, reference frequency. */
  type Sums = seq<seq<real>>

  /** The variant abundances of one contig, in map order: position -> [(variant, (count, depth))]. */
  type Positions = seq<(int, seq<(string, Abundance)>)>

  /** The fields of `PileupStats::PileupContigStats` that `add_contig` reads. */
  datatype PileupStats = PileupStats(
    tid: int,
    targetName: string,
    targetLen: real,
    coverage: real,
    variance: real,
    meanGenotypes: real,
    variantAbundances: Positions,
    indels: Support<string>,
    nucfrequency: Support<char>,
    totalVariants: int)

  /** The keys of a sequence of pairs, as a map's iteration yields them: no key twice. */
  predicate DistinctKeys<K(==), V>(s: seq<(K, V)>)
  {
    forall i, j :: 0 <= i < j < |s| ==> s[i].0 != s[j].0
  }

  function KeysOf<K(==), V>(s: seq<(K, V)>): set<K>
  {
    set i | 0 <= i < |s| :: s[i].0
  }

  /** Both levels of the abundance map are maps. */
  predicate WellKeyed(positions: Positions)
  {
    && DistinctKeys(positions)
    && forall j :: 0 <= j < |positions| ==> DistinctKeys(positions[j].1)
  }

  /** The key a map's iteration yields next: any key not visited yet. */
  method NextKey<T>(todo: set<T>) returns (k: T)
    requires todo != {}
    ensures k in todo
  {
    k :| k in todo;
  }

  // ---------------------------------------------------------------------------
  // Per-sample slots: `entry(tid).or_insert(vec![0.0; sample_count])[sample_idx] = value`.

  function Zeros(n: nat): (z: seq<real>)
    ensures |z| == n && forall i :: 0 <= i < n ==> z[i] == 0.0
  {
    seq(n, _ => 0.0)
  }

  /** The vector the write goes to: the existing one, or a fresh zero vector. */
  function SlotRow(vs: Vectors, tid: int, sampleCount: nat): seq<real>
  {
    if tid in vs then vs[tid] else Zeros(sampleCount)
  }

  /** The write does not panic: the sample index is inside that vector. */
  predicate SlotFits(vs: Vectors, tid: int, sampleCount: nat, sampleIdx: nat)
  {
    sampleIdx < |SlotRow(vs, tid, sampleCount)|
  }

  /** The vectors after writing one sample's value for one contig. */
  function SetSlot(vs: Vectors, tid: int, sampleCount: nat, sampleIdx: nat, x: real): (r: Vectors)
    requires SlotFits(vs, tid, sampleCount, sampleIdx)
    ensures r.Keys == vs.Keys + {tid}
    ensures |r[tid]| == (if tid in vs then |vs[tid]| else sampleCount) && r[tid][sampleIdx] == x
    ensures forall j :: 0 <= j < |r[tid]| && j != sampleIdx ==>
              r[tid][j] == (if tid in vs then vs[tid][j] else 0.0)
    ensures forall t :: t in vs && t != tid ==> r[t] == vs[t]
  {
    vs[tid := SlotRow(vs, tid, sampleCount)[sampleIdx := x]]
  }

  /** A repeat call for the same contig and sample overwrites the slot: only the last value is kept. */
  lemma SetSlotOverwrites(vs: Vectors, tid: int, sampleCount: nat, sampleIdx: nat, x: real, y: real)
    requires SlotFits(vs, tid, sampleCount, sampleIdx)
    ensures SlotFits(SetSlot(vs, tid, sampleCount, sampleIdx, x), tid, sampleCount, sampleIdx)
    ensures SetSlot(SetSlot(vs, tid, sampleCount, sampleIdx, x), tid, sampleCount, sampleIdx, y)
            == SetSlot(vs, tid, sampleCount, sampleIdx, y)
  {
    var once := SetSlot(vs, tid, sampleCount, sampleIdx, y);
    var twice := SetSlot(SetSlot(vs, tid, sampleCount, sampleIdx, x), tid, sampleCount, sampleIdx, y);
    assert twice[tid] == once[tid];
  }

  /** Writes for two different samples do not interfere: they can happen in either order. */
  lemma SetSlotSamplesCommute(vs: Vectors, tid: int, sampleCount: nat, i: nat, j: nat, x: real, y: real)
    requires i != j
    requires SlotFits(vs, tid, sampleCount, i) && SlotFits(vs, tid, sampleCount, j)
    ensures SlotFits(SetSlot(vs, tid, sampleCount, i, x), tid, sampleCount, j)
    ensures SlotFits(SetSlot(vs, tid, sampleCount, j, y), tid, sampleCount, i)
    ensures SetSlot(SetSlot(vs, tid, sampleCount, i, x), tid, sampleCount, j, y)
            == SetSlot(SetSlot(vs, tid, sampleCount, j, y), tid, sampleCount, i, x)
  {
    var a := SetSlot(SetSlot(vs, tid, sampleCount, i, x), tid, sampleCount, j, y);
    var b := SetSlot(SetSlot(vs, tid, sampleCount, j, y), tid, sampleCount, i, x);
    assert a[tid] == b[tid];
  }

  // ---------------------------------------------------------------------------
  // `entry(k).or_insert(v)` on maps whose first value is kept.

  function Keep<K(==), V>(m: map<K, V>, k: K, v: V): (r: map<K, V>)
    ensures r.Keys == m.Keys + {k}
    ensures forall j :: j in m ==> r[j] == m[j]
    ensures k !in m ==> r[k] == v
  {
    if k in m then m else m[k := v]
  }

  /** The first written value wins: a later insert for the same key changes nothing. */
  lemma KeepFirstWins<K, V>(m: map<K, V>, k: K, v: V, w: V)
    ensures Keep(Keep(m, k, v), k, w) == Keep(m, k, v)
    ensures Keep(Keep(m, k, v), k, w)[k] == (if k in m then m[k] else v)
  {
  }

  function Get<K(==), V>(m: map<K, V>, k: K, default: V): V
  {
    if k in m then m[k] else default
  }

  // ---------------------------------------------------------------------------
  // Read support: the nested set union of `add_contig`'s merge of SNPs and indels.

  /** The reads supporting an allele, none when the allele is absent. */
  function Reads<K(==)>(m: map<K, set<int>>, allele: K): set<int>
  {
    if allele in m then m[allele] else {}
  }

  /** Allele-wise union of two read-support maps at one position. */
  function AlleleUnion<K(==)>(a: map<K, set<int>>, b: map<K, set<int>>): map<K, set<int>>
  {
    map k | k in a.Keys + b.Keys :: Reads(a, k) + Reads(b, k)
  }

  function AllelesAt<K(==)>(s: Support<K>, pos: int): map<K, set<int>>
  {
    if pos in s then s[pos] else map[]
  }

  /** Position-wise, then allele-wise union of two support maps. */
  function NestedUnion<K(==)>(a: Support<K>, b: Support<K>): (r: Support<K>)
    ensures r.Keys == a.Keys + b.Keys
    ensures forall p :: p in r ==> r[p].Keys == AllelesAt(a, p).Keys + AllelesAt(b, p).Keys
  {
    map p | p in a.Keys + b.Keys :: AlleleUnion(AllelesAt(a, p), AllelesAt(b, p))
  }

  /** A read supports an allele after the merge exactly when it did in either input. */
  lemma NestedUnionMembership<K>(a: Support<K>, b: Support<K>, pos: int, allele: K, read: int)
    ensures var r := NestedUnion(a, b);
            (pos in r && allele in r[pos] && read in r[pos][allele])
            <==> (read in Reads(AllelesAt(a, pos), allele) || read in Reads(AllelesAt(b, pos), allele))
  {
    var r := NestedUnion(a, b);
    if pos in r {
      assert r[pos] == AlleleUnion(AllelesAt(a, pos), AllelesAt(b, pos));
    }
  }

  lemma AlleleUnionIdempotent<K>(a: map<K, set<int>>, b: map<K, set<int>>)
    ensures AlleleUnion(AlleleUnion(a, b), b) == AlleleUnion(a, b)
  {
    var once := AlleleUnion(a, b);
    var twice := AlleleUnion(once, b);
    assert twice.Keys == once.Keys;
    forall k | k in once
      ensures twice[k] == once[k]
    {
      assert Reads(once, k) == Reads(a, k) + Reads(b, k);
    }
  }

  lemma AlleleUnionOrder<K>(a: map<K, set<int>>, b: map<K, set<int>>, c: map<K, set<int>>)
    ensures AlleleUnion(AlleleUnion(a, b), c) == AlleleUnion(AlleleUnion(a, c), b)
  {
    var ab, ac := AlleleUnion(a, b), AlleleUnion(a, c);
    var x, y := AlleleUnion(ab, c), AlleleUnion(ac, b);
    assert x.Keys == y.Keys;
    forall k | k in x
      ensures x[k] == y[k]
    {
      assert Reads(ab, k) == Reads(a, k) + Reads(b, k);
      assert Reads(ac, k) == Reads(a, k) + Reads(c, k);
      assert x[k] == Reads(ab, k) + Reads(c, k);
      assert y[k] == Reads(ac, k) + Reads(b, k);
      UnionSwap(Reads(a, k), Reads(b, k), Reads(c, k));
    }
  }

  lemma UnionSwap(p: set<int>, q: set<int>, r: set<int>)
    ensures (p + q) + r == (p + r) + q
  {
  }

  lemma AllelesAtUnion<K>(a: Support<K>, b: Support<K>, p: int)
    ensures AllelesAt(NestedUnion(a, b), p) == AlleleUnion(AllelesAt(a, p), AllelesAt(b, p))
  {
    if p !in a && p !in b {
      assert AlleleUnion(AllelesAt(a, p), AllelesAt(b, p)) == map[];
    }
  }

  /** Merging the same input twice equals merging it once. */
  lemma {:induction false} NestedUnionIdempotent<K>(a: Support<K>, b: Support<K>)
    ensures NestedUnion(NestedUnion(a, b), b) == NestedUnion(a, b)
  {
    var once := NestedUnion(a, b);
    var twice := NestedUnion(once, b);
    assert twice.Keys == once.Keys;
    forall p | p in once
      ensures twice[p] == once[p]
    {
      AllelesAtUnion(a, b, p);
      AlleleUnionIdempotent(AllelesAt(a, p), AllelesAt(b, p));
    }
  }

  /** The order in which two inputs are merged does not matter. */
  lemma {:induction false} NestedUnionOrder<K>(a: Support<K>, b: Support<K>, c: Support<K>)
    ensures NestedUnion(NestedUnion(a, b), c) == NestedUnion(NestedUnion(a, c), b)
  {
    var x := NestedUnion(NestedUnion(a, b), c);
    var y := NestedUnion(NestedUnion(a, c), b);
    assert x.Keys == y.Keys;
    forall p | p in x
      ensures x[p] == y[p]
    {
      OrderAt(a, b, c, p);
    }
  }

  lemma OrderAt<K>(a: Support<K>, b: Support<K>, c: Support<K>, p: int)
    requires p in NestedUnion(NestedUnion(a, b), c) && p in NestedUnion(NestedUnion(a, c), b)
    ensures NestedUnion(NestedUnion(a, b), c)[p] == NestedUnion(NestedUnion(a, c), b)[p]
  {
    AllelesAtUnion(a, b, p);
    AllelesAtUnion(a, c, p);
    AlleleUnionOrder(AllelesAt(a, p), AllelesAt(b, p), AllelesAt(c, p));
  }

  /** Merging into an empty map gives the input: the branch that replaces an empty map is the union too. */
  lemma NestedUnionEmpty<K>(current: Support<K>, b: Support<K>)
    requires |current| == 0
    ensures NestedUnion(current, b) == b
  {
    assert current == map[];
    var r := NestedUnion(current, b);
    assert r.Keys == b.Keys;
    forall p | p in b
      ensures r[p] == b[p]
    {
      AlleleUnionEmpty(map[], b[p]);
    }
  }

  /**
   * The merge of `add_contig`: an empty contig map is replaced by the input;
   * otherwise each incoming position is merged into its entry.
   */
  method MergeSupport<K(==)>(current: Support<K>, incoming: Support<K>) returns (r: Support<K>)
    ensures r == NestedUnion(current, incoming)
  {
    if |current| == 0 {
      NestedUnionEmpty(current, incoming);
      r := incoming;
    } else {
      r := MergePositions(current, incoming);
    }
  }

  /** The incoming alleles of a position once the loop has visited it. */
  function VisitedAt<K(==)>(incoming: Support<K>, todo: set<int>, p: int): map<K, set<int>>
  {
    if p in incoming && p !in todo then incoming[p] else map[]
  }

  /** The position loop: each incoming position is merged into the entry `or_insert` gives it. */
  method MergePositions<K(==)>(current: Support<K>, incoming: Support<K>) returns (r: Support<K>)
    ensures r == NestedUnion(current, incoming)
  {
    r := current;
    var todo := incoming.Keys;
    PositionsStart(current, incoming);
    while todo != {}
      invariant todo <= incoming.Keys
      invariant r.Keys == current.Keys + (incoming.Keys - todo)
      invariant forall p :: p in r ==> r[p] == AlleleUnion(AllelesAt(current, p), VisitedAt(incoming, todo, p))
      decreases todo
    {
      var pos := NextKey(todo);
      var merged := MergeAlleles(AllelesAt(r, pos), incoming[pos]);
      PositionStep(current, incoming, todo, pos, r, merged);
      r := r[pos := merged];
      todo := todo - {pos};
    }
    NestedUnionByPoints(current, incoming, r);
  }

  /** Before the loop nothing is visited: every position holds its current alleles. */
  lemma PositionsStart<K>(current: Support<K>, incoming: Support<K>)
    ensures forall p :: p in current ==>
              current[p] == AlleleUnion(AllelesAt(current, p), VisitedAt(incoming, incoming.Keys, p))
  {
    forall p | p in current
      ensures current[p] == AlleleUnion(AllelesAt(current, p), VisitedAt(incoming, incoming.Keys, p))
    {
      AlleleUnionEmptyRight(current[p]);
    }
  }

  /** Visiting one position keeps the loop's description of the merged map. */
  lemma PositionStep<K>(current: Support<K>, incoming: Support<K>, todo: set<int>, pos: int,
                        r: Support<K>, merged: map<K, set<int>>)
    requires todo <= incoming.Keys && pos in todo
    requires r.Keys == current.Keys + (incoming.Keys - todo)
    requires forall p :: p in r ==> r[p] == AlleleUnion(AllelesAt(current, p), VisitedAt(incoming, todo, p))
    requires merged == AlleleUnion(AllelesAt(r, pos), incoming[pos])
    ensures r[pos := merged].Keys == current.Keys + (incoming.Keys - (todo - {pos}))
    ensures forall p :: p in r[pos := merged] ==>
              r[pos := merged][p] == AlleleUnion(AllelesAt(current, p), VisitedAt(incoming, todo - {pos}, p))
  {
    var next := r[pos := merged];
    assert AllelesAt(r, pos) == AlleleUnion(AllelesAt(current, pos), map[]) by {
      if pos !in r {
        assert AlleleUnion(AllelesAt(current, pos), map[]) == map[];
      }
    }
    AlleleUnionEmptyRight(AllelesAt(current, pos));
    forall p | p in next
      ensures next[p] == AlleleUnion(AllelesAt(current, p), VisitedAt(incoming, todo - {pos}, p))
    {
      if p != pos {
        assert VisitedAt(incoming, todo - {pos}, p) == VisitedAt(incoming, todo, p);
      }
    }
  }

  lemma AlleleUnionEmptyRight<K>(a: map<K, set<int>>)
    ensures AlleleUnion(a, map[]) == a
  {
    var u := AlleleUnion(a, map[]);
    assert u.Keys == a.Keys;
    forall k | k in a
      ensures u[k] == a[k]
    {
    }
  }

  /** A map with the union's keys and the union's alleles at every position is the union. */
  lemma NestedUnionByPoints<K>(a: Support<K>, b: Support<K>, r: Support<K>)
    requires r.Keys == a.Keys + (b.Keys - {})
    requires forall p :: p in r ==> r[p] == AlleleUnion(AllelesAt(a, p), VisitedAt(b, {}, p))
    ensures r == NestedUnion(a, b)
  {
    var u := NestedUnion(a, b);
    assert r.Keys == u.Keys;
    forall p | p in r
      ensures r[p] == u[p]
    {
      assert VisitedAt(b, {}, p) == AllelesAt(b, p);
    }
  }

  /** The incoming reads of an allele once the loop has visited it. */
  function Visited<K(==)>(incoming: map<K, set<int>>, todo: set<K>, allele: K): set<int>
  {
    if allele in incoming && allele !in todo then incoming[allele] else {}
  }

  /** One position of the merge: the allele-wise union, replacing an empty map or an empty read set. */
  method MergeAlleles<K(==)>(current: map<K, set<int>>, incoming: map<K, set<int>>) returns (r: map<K, set<int>>)
    ensures r == AlleleUnion(current, incoming)
  {
    if |current| == 0 {
      AlleleUnionEmpty(current, incoming);
      r := incoming;
    } else {
      r := MergeReadSets(current, incoming);
    }
  }

  lemma AlleleUnionEmpty<K>(current: map<K, set<int>>, incoming: map<K, set<int>>)
    requires |current| == 0
    ensures incoming == AlleleUnion(current, incoming)
  {
    assert current == map[];
    forall k | k in incoming
      ensures incoming[k] == Reads(current, k) + Visited(incoming, {}, k)
    {
    }
    AlleleUnionByPoints(current, incoming, incoming);
  }

  /** The allele loop: each incoming read set replaces an empty set or is added to the existing one. */
  method MergeReadSets<K(==)>(current: map<K, set<int>>, incoming: map<K, set<int>>) returns (r: map<K, set<int>>)
    ensures r == AlleleUnion(current, incoming)
  {
    r := current;
    var todo := incoming.Keys;
    while todo != {}
      invariant todo <= incoming.Keys
      invariant r.Keys == current.Keys + (incoming.Keys - todo)
      invariant forall k :: k in r ==> r[k] == Reads(current, k) + Visited(incoming, todo, k)
      decreases todo
    {
      var allele :| allele in todo;
      var readSet := Get(r, allele, {});
      assert readSet == Reads(current, allele) by {
        if allele in r {
          assert Visited(incoming, todo, allele) == {};
        }
      }
      if |readSet| == 0 {
        readSet := incoming[allele];
      } else {
        readSet := readSet + incoming[allele];
      }
      AlleleStep(current, incoming, todo, allele, r, readSet);
      r := r[allele := readSet];
      todo := todo - {allele};
    }
    AlleleUnionByPoints(current, incoming, r);
  }

  /** Visiting one allele keeps the loop's description of the merged map. */
  lemma AlleleStep<K>(current: map<K, set<int>>, incoming: map<K, set<int>>, todo: set<K>, allele: K,
                      r: map<K, set<int>>, readSet: set<int>)
    requires todo <= incoming.Keys && allele in todo
    requires r.Keys == current.Keys + (incoming.Keys - todo)
    requires forall k :: k in r ==> r[k] == Reads(current, k) + Visited(incoming, todo, k)
    requires readSet == Reads(current, allele) + incoming[allele]
    ensures r[allele := readSet].Keys == current.Keys + (incoming.Keys - (todo - {allele}))
    ensures forall k :: k in r[allele := readSet] ==>
              r[allele := readSet][k] == Reads(current, k) + Visited(incoming, todo - {allele}, k)
  {
    var next := r[allele := readSet];
    forall k | k in next
      ensures next[k] == Reads(current, k) + Visited(incoming, todo - {allele}, k)
    {
      if k != allele {
        assert Visited(incoming, todo - {allele}, k) == Visited(incoming, todo, k);
      }
    }
  }

  /** A map with the union's keys and the union's read sets at every key is the union. */
  lemma AlleleUnionByPoints<K>(a: map<K, set<int>>, b: map<K, set<int>>, r: map<K, set<int>>)
    requires r.Keys == a.Keys + (b.Keys - {})
    requires forall k :: k in r ==> r[k] == Reads(a, k) + Visited(b, {}, k)
    ensures r == AlleleUnion(a, b)
  {
    var u := AlleleUnion(a, b);
    assert r.Keys == u.Keys;
    forall k | k in r
      ensures r[k] == u[k]
    {
      assert Visited(b, {}, k) == Reads(b, k);
    }
  }

  // ---------------------------------------------------------------------------
  // K-mer table: kmer -> one count per contig.

  type KmerTable = map<seq<char>, seq<nat>>

  /** The row a count goes to: the existing one, or a fresh zero row with one slot per contig. */
  function KmerRow(table: KmerTable, kmer: seq<char>, numberOfContigs: nat): seq<nat>
  {
    if kmer in table then table[kmer] else seq(numberOfContigs, _ => 0)
  }

  /** No write panics: the contig id, as an index, is inside every row written. */
  predicate KmersFit(table: KmerTable, kFreq: map<seq<char>, nat>, tid: int, numberOfContigs: nat)
  {
    forall kmer :: kmer in kFreq ==> 0 <= tid < |KmerRow(table, kmer, numberOfContigs)|
  }

  /** The table after writing one contig's counts into its column. */
  function WithCounts(table: KmerTable, kFreq: map<seq<char>, nat>, tid: int, numberOfContigs: nat): (r: KmerTable)
    requires KmersFit(table, kFreq, tid, numberOfContigs)
    ensures r.Keys == table.Keys + kFreq.Keys
  {
    map kmer | kmer in table.Keys + kFreq.Keys ::
      if kmer in kFreq then KmerRow(table, kmer, numberOfContigs)[tid := kFreq[kmer]] else table[kmer]
  }

  /**
   * Each counted k-mer gets its count in the contig's column and keeps every
   * other column (zero in a fresh row); uncounted k-mers keep their rows.
   */
  lemma WithCountsWrites(table: KmerTable, kFreq: map<seq<char>, nat>, tid: int, numberOfContigs: nat)
    requires KmersFit(table, kFreq, tid, numberOfContigs)
    ensures var r := WithCounts(table, kFreq, tid, numberOfContigs);
            && r.Keys == table.Keys + kFreq.Keys
            && (forall kmer :: kmer in table && kmer !in kFreq ==> r[kmer] == table[kmer])
            && (forall kmer :: kmer in kFreq ==>
                  && |r[kmer]| == (if kmer in table then |table[kmer]| else numberOfContigs)
                  && r[kmer][tid] == kFreq[kmer]
                  && forall j :: 0 <= j < |r[kmer]| && j != tid ==>
                       r[kmer][j] == (if kmer in table then table[kmer][j] else 0))
  {
  }

  /** The row of any k-mer after the write: the counted k-mers get the contig's count, the others keep their row. */
  lemma KmerRowAfter(table: KmerTable, kFreq: map<seq<char>, nat>, tid: int, numberOfContigs: nat, kmer: seq<char>)
    requires KmersFit(table, kFreq, tid, numberOfContigs)
    ensures kmer in kFreq ==>
              KmerRow(WithCounts(table, kFreq, tid, numberOfContigs), kmer, numberOfContigs)
              == KmerRow(table, kmer, numberOfContigs)[tid := kFreq[kmer]]
    ensures kmer !in kFreq ==>
              KmerRow(WithCounts(table, kFreq, tid, numberOfContigs), kmer, numberOfContigs)
              == KmerRow(table, kmer, numberOfContigs)
  {
  }

  /** Two tables with the same k-mers and the same rows are equal. */
  lemma TablesByRows(x: KmerTable, y: KmerTable, numberOfContigs: nat)
    requires x.Keys == y.Keys
    requires forall kmer :: kmer in x ==> KmerRow(x, kmer, numberOfContigs) == KmerRow(y, kmer, numberOfContigs)
    ensures x == y
  {
  }

  /** Writing one contig's counts keeps every row long enough for another contig's counts. */
  lemma KmersFitAfter(table: KmerTable, f1: map<seq<char>, nat>, t1: int, f2: map<seq<char>, nat>, t2: int,
                      numberOfContigs: nat)
    requires KmersFit(table, f1, t1, numberOfContigs) && KmersFit(table, f2, t2, numberOfContigs)
    ensures KmersFit(WithCounts(table, f1, t1, numberOfContigs), f2, t2, numberOfContigs)
  {
    forall kmer | kmer in f2
      ensures 0 <= t2 < |KmerRow(WithCounts(table, f1, t1, numberOfContigs), kmer, numberOfContigs)|
    {
      KmerRowAfter(table, f1, t1, numberOfContigs, kmer);
    }
  }

  lemma CommuteAt(table: KmerTable, f1: map<seq<char>, nat>, t1: int, f2: map<seq<char>, nat>, t2: int,
                  numberOfContigs: nat, kmer: seq<char>)
    requires t1 != t2
    requires KmersFit(table, f1, t1, numberOfContigs) && KmersFit(table, f2, t2, numberOfContigs)
    requires KmersFit(WithCounts(table, f1, t1, numberOfContigs), f2, t2, numberOfContigs)
    requires KmersFit(WithCounts(table, f2, t2, numberOfContigs), f1, t1, numberOfContigs)
    ensures KmerRow(WithCounts(WithCounts(table, f1, t1, numberOfContigs), f2, t2, numberOfContigs), kmer, numberOfContigs)
            == KmerRow(WithCounts(WithCounts(table, f2, t2, numberOfContigs), f1, t1, numberOfContigs), kmer, numberOfContigs)
  {
    var a := WithCounts(table, f1, t1, numberOfContigs);
    var b := WithCounts(table, f2, t2, numberOfContigs);
    KmerRowAfter(table, f1, t1, numberOfContigs, kmer);
    KmerRowAfter(table, f2, t2, numberOfContigs, kmer);
    KmerRowAfter(a, f2, t2, numberOfContigs, kmer);
    KmerRowAfter(b, f1, t1, numberOfContigs, kmer);
    var row: seq<nat> := KmerRow(table, kmer, numberOfContigs);
    if kmer in f1 && kmer in f2 {
      assert row[t1 := f1[kmer]][t2 := f2[kmer]] == row[t2 := f2[kmer]][t1 := f1[kmer]];
    }
  }

  /** Counts for two different contigs go to different columns: their order does not matter. */
  lemma WithCountsCommute(table: KmerTable, f1: map<seq<char>, nat>, t1: int,
                          f2: map<seq<char>, nat>, t2: int, numberOfContigs: nat)
    requires t1 != t2
    requires KmersFit(table, f1, t1, numberOfContigs) && KmersFit(table, f2, t2, numberOfContigs)
    ensures KmersFit(WithCounts(table, f1, t1, numberOfContigs), f2, t2, numberOfContigs)
    ensures KmersFit(WithCounts(table, f2, t2, numberOfContigs), f1, t1, numberOfContigs)
    ensures WithCounts(WithCounts(table, f1, t1, numberOfContigs), f2, t2, numberOfContigs)
            == WithCounts(WithCounts(table, f2, t2, numberOfContigs), f1, t1, numberOfContigs)
  {
    KmersFitAfter(table, f1, t1, f2, t2, numberOfContigs);
    KmersFitAfter(table, f2, t2, f1, t1, numberOfContigs);
    var x := WithCounts(WithCounts(table, f1, t1, numberOfContigs), f2, t2, numberOfContigs);
    var y := WithCounts(WithCounts(table, f2, t2, numberOfContigs), f1, t1, numberOfContigs);
    forall kmer | kmer in x
      ensures KmerRow(x, kmer, numberOfContigs) == KmerRow(y, kmer, numberOfContigs)
    {
      CommuteAt(table, f1, t1, f2, t2, numberOfContigs, kmer);
    }
    TablesByRows(x, y, numberOfContigs);
  }

  /** Counting the same contig twice with the same counts gives the table of counting it once. */
  lemma WithCountsIdempotent(table: KmerTable, kFreq: map<seq<char>, nat>, tid: int, numberOfContigs: nat)
    requires KmersFit(table, kFreq, tid, numberOfContigs)
    ensures KmersFit(WithCounts(table, kFreq, tid, numberOfContigs), kFreq, tid, numberOfContigs)
    ensures WithCounts(WithCounts(table, kFreq, tid, numberOfContigs), kFreq, tid, numberOfContigs)
            == WithCounts(table, kFreq, tid, numberOfContigs)
  {
    var once := WithCounts(table, kFreq, tid, numberOfContigs);
    var twice := WithCounts(once, kFreq, tid, numberOfContigs);
    assert twice.Keys == once.Keys;
    forall kmer | kmer in once
      ensures twice[kmer] == once[kmer]
    {
      if kmer in kFreq {
        assert KmerRow(once, kmer, numberOfContigs) == once[kmer];
      }
    }
  }

  /** A k-mer's row while the loop runs: counted once visited. */
  function Counted(table: KmerTable, kFreq: map<seq<char>, nat>, todo: set<seq<char>>, tid: int,
                   numberOfContigs: nat, kmer: seq<char>): seq<nat>
  {
    var row := KmerRow(table, kmer, numberOfContigs);
    if kmer in kFreq && kmer !in todo && 0 <= tid < |row| then row[tid := kFreq[kmer]] else row
  }

  /** Visiting one k-mer keeps the loop's description of the table. */
  lemma CountStep(table: KmerTable, kFreq: map<seq<char>, nat>, todo: set<seq<char>>, tid: int,
                  numberOfContigs: nat, r: KmerTable, kmer: seq<char>)
    requires kmer in todo && todo <= kFreq.Keys
    requires r.Keys == table.Keys + (kFreq.Keys - todo)
    requires forall k :: k in r ==> KmerRow(r, k, numberOfContigs) == Counted(table, kFreq, todo, tid, numberOfContigs, k)
    requires 0 <= tid < |KmerRow(r, kmer, numberOfContigs)|
    ensures KmerRow(r, kmer, numberOfContigs) == KmerRow(table, kmer, numberOfContigs)
    ensures var next := r[kmer := KmerRow(r, kmer, numberOfContigs)[tid := kFreq[kmer]]];
            forall k :: k in next ==>
              KmerRow(next, k, numberOfContigs) == Counted(table, kFreq, todo - {kmer}, tid, numberOfContigs, k)
  {
    var next := r[kmer := KmerRow(r, kmer, numberOfContigs)[tid := kFreq[kmer]]];
    forall k | k in next
      ensures KmerRow(next, k, numberOfContigs) == Counted(table, kFreq, todo - {kmer}, tid, numberOfContigs, k)
    {
      if k != kmer {
        assert Counted(table, kFreq, todo - {kmer}, tid, numberOfContigs, k) == Counted(table, kFreq, todo, tid, numberOfContigs, k);
      }
    }
  }

  /** Once every k-mer is visited, the table is the written one. */
  lemma CountedAll(table: KmerTable, kFreq: map<seq<char>, nat>, tid: int, numberOfContigs: nat, r: KmerTable)
    requires KmersFit(table, kFreq, tid, numberOfContigs)
    requires r.Keys == table.Keys + (kFreq.Keys - {})
    requires forall kmer :: kmer in r ==> KmerRow(r, kmer, numberOfContigs) == Counted(table, kFreq, {}, tid, numberOfContigs, kmer)
    ensures r == WithCounts(table, kFreq, tid, numberOfContigs)
  {
    forall kmer | kmer in r
      ensures KmerRow(r, kmer, numberOfContigs) == KmerRow(WithCounts(table, kFreq, tid, numberOfContigs), kmer, numberOfContigs)
    {
      KmerRowAfter(table, kFreq, tid, numberOfContigs, kmer);
    }
    TablesByRows(r, WithCounts(table, kFreq, tid, numberOfContigs), numberOfContigs);
  }

  /** The k-mer loop: each count is written into its row, created when missing. */
  method CountKmers(table: KmerTable, kFreq: map<seq<char>, nat>, tid: int, numberOfContigs: nat)
    returns (ok: bool, r: KmerTable)
    ensures ok <==> KmersFit(table, kFreq, tid, numberOfContigs)
    ensures ok ==> r == WithCounts(table, kFreq, tid, numberOfContigs)
  {
    r := table;
    var todo := kFreq.Keys;
    while todo != {}
      invariant todo <= kFreq.Keys
      invariant r.Keys == table.Keys + (kFreq.Keys - todo)
      invariant forall kmer :: kmer in kFreq && kmer !in todo ==> 0 <= tid < |KmerRow(table, kmer, numberOfContigs)|
      invariant forall kmer :: kmer in r ==> KmerRow(r, kmer, numberOfContigs) == Counted(table, kFreq, todo, tid, numberOfContigs, kmer)
      decreases todo
    {
      var kmer := NextKey(todo);
      var row := KmerRow(r, kmer, numberOfContigs);
      if !(0 <= tid < |row|) {
        return false, r;
      }
      CountStep(table, kFreq, todo, tid, numberOfContigs, r, kmer);
      r := r[kmer := row[tid := kFreq[kmer]]];
      todo := todo - {kmer};
    }
    CountedAll(table, kFreq, tid, numberOfContigs, r);
    return true, r;
  }

  // ---------------------------------------------------------------------------
  // One position of `add_contig`: the sample's (count, depth) for every variant.

  /** The row a variant's abundance goes to: the existing one, or a fresh row of (0, 0) per sample. */
  function VariantRow(pv: SampleRows, variant: string, sampleCount: nat): seq<Abundance>
  {
    if variant in pv then pv[variant] else seq(sampleCount, _ => (0.0, 0.0))
  }

  /**
   * The variant rows after the loop over one position's abundances, or None
   * where the write panics (the sample index is outside the row).
   */
  function Recorded(pv: SampleRows, amap: seq<(string, Abundance)>, sampleCount: nat, sampleIdx: nat): (r: Option<SampleRows>)
    ensures r.Some? ==> pv.Keys <= r.value.Keys
  {
    if |amap| == 0 then Some(pv)
    else match Recorded(pv, amap[..|amap| - 1], sampleCount, sampleIdx)
      case None => None
      case Some(prev) =>
        var (variant, a) := amap[|amap| - 1];
        var row := VariantRow(prev, variant, sampleCount);
        if sampleIdx < |row| then Some(prev[variant := row[sampleIdx := a]]) else None
  }

  /** `variant_depth` before its pseudocount: the summed counts. */
  function CountSum(amap: seq<(string, Abundance)>): real
  {
    if |amap| == 0 then 0.0 else CountSum(amap[..|amap| - 1]) + amap[|amap| - 1].1.0
  }

  /** `total_depth`: the depth of the last variant visited plus one, and 0 for a position without variants. */
  function TotalDepth(amap: seq<(string, Abundance)>): real
  {
    if |amap| == 0 then 0.0 else amap[|amap| - 1].1.1 + 1.0
  }

  /** Every row the loop writes has a slot for the sample. */
  predicate SamplesFit(pv: SampleRows, amap: seq<(string, Abundance)>, sampleCount: nat, sampleIdx: nat)
  {
    forall k :: 0 <= k < |amap| ==> sampleIdx < |VariantRow(pv, amap[k].0, sampleCount)|
  }

  /** The loop adds the listed variants and leaves every unlisted row as it was. */
  lemma {:induction false} RecordedKeeps(pv: SampleRows, amap: seq<(string, Abundance)>, sampleCount: nat, sampleIdx: nat)
    requires Recorded(pv, amap, sampleCount, sampleIdx).Some?
    ensures var r := Recorded(pv, amap, sampleCount, sampleIdx).value;
            && r.Keys == pv.Keys + KeysOf(amap)
            && forall v :: v in pv && v !in KeysOf(amap) ==> r[v] == pv[v]
  {
    if |amap| > 0 {
      var n := |amap| - 1;
      var init := amap[..n];
      RecordedKeeps(pv, init, sampleCount, sampleIdx);
      assert KeysOf(amap) == KeysOf(init) + {amap[n].0} by {
        assert forall i :: 0 <= i < n ==> init[i] == amap[i];
      }
    } else {
      assert KeysOf(amap) == {};
    }
  }

  /** Without its last pair, a sequence with distinct keys still has distinct keys, none of them the last key. */
  lemma KeysOfPrefix<K, V>(s: seq<(K, V)>)
    requires DistinctKeys(s) && |s| > 0
    ensures DistinctKeys(s[..|s| - 1])
    ensures s[|s| - 1].0 !in KeysOf(s[..|s| - 1])
  {
    var n := |s| - 1;
    assert forall i :: 0 <= i < n ==> s[..n][i] == s[i];
  }

  /** Every row fits exactly when the rows of the prefix fit and the last one does. */
  lemma SamplesFitStep(pv: SampleRows, amap: seq<(string, Abundance)>, sampleCount: nat, sampleIdx: nat)
    requires |amap| > 0
    ensures var n := |amap| - 1;
            SamplesFit(pv, amap, sampleCount, sampleIdx)
            <==> SamplesFit(pv, amap[..n], sampleCount, sampleIdx) && sampleIdx < |VariantRow(pv, amap[n].0, sampleCount)|
  {
    var n := |amap| - 1;
    assert forall i :: 0 <= i < n ==> amap[..n][i] == amap[i];
  }

  /** With distinct variants, the loop panics exactly when some row has no slot for the sample. */
  lemma {:induction false} RecordedSucceeds(pv: SampleRows, amap: seq<(string, Abundance)>, sampleCount: nat, sampleIdx: nat)
    requires DistinctKeys(amap)
    ensures Recorded(pv, amap, sampleCount, sampleIdx).Some? <==> SamplesFit(pv, amap, sampleCount, sampleIdx)
  {
    if |amap| > 0 {
      var n := |amap| - 1;
      var init := amap[..n];
      KeysOfPrefix(amap);
      SamplesFitStep(pv, amap, sampleCount, sampleIdx);
      RecordedSucceeds(pv, init, sampleCount, sampleIdx);
      var prev := Recorded(pv, init, sampleCount, sampleIdx);
      if prev.Some? {
        RecordedKeeps(pv, init, sampleCount, sampleIdx);
        assert VariantRow(prev.value, amap[n].0, sampleCount) == VariantRow(pv, amap[n].0, sampleCount);
      }
    }
  }

  /**
   * With distinct variants, each listed variant's row holds the sample's
   * abundance in the sample's slot and keeps every other slot.
   */
  lemma {:induction false} RecordedWrites(pv: SampleRows, amap: seq<(string, Abundance)>, sampleCount: nat, sampleIdx: nat)
    requires DistinctKeys(amap)
    requires Recorded(pv, amap, sampleCount, sampleIdx).Some?
    ensures var r := Recorded(pv, amap, sampleCount, sampleIdx).value;
            forall k :: 0 <= k < |amap| ==>
              && amap[k].0 in r
              && sampleIdx < |VariantRow(pv, amap[k].0, sampleCount)|
              && r[amap[k].0] == VariantRow(pv, amap[k].0, sampleCount)[sampleIdx := amap[k].1]
  {
    if |amap| == 0 {
      return;
    }
    var n := |amap| - 1;
    var init := amap[..n];
    KeysOfPrefix(amap);
    var prev := Recorded(pv, init, sampleCount, sampleIdx);
    RecordedWrites(pv, init, sampleCount, sampleIdx);
    RecordedKeeps(pv, init, sampleCount, sampleIdx);
    assert VariantRow(prev.value, amap[n].0, sampleCount) == VariantRow(pv, amap[n].0, sampleCount);
    var r := Recorded(pv, amap, sampleCount, sampleIdx).value;
    forall k | 0 <= k < |amap|
      ensures && amap[k].0 in r
              && sampleIdx < |VariantRow(pv, amap[k].0, sampleCount)|
              && r[amap[k].0] == VariantRow(pv, amap[k].0, sampleCount)[sampleIdx := amap[k].1]
    {
      if k < n {
        assert init[k] == amap[k];
      }
    }
  }

  /** Recording a sample changes no other sample's slot of any existing row. */
  lemma OtherSamplesKept(pv: SampleRows, amap: seq<(string, Abundance)>, sampleCount: nat, sampleIdx: nat,
                         variant: string, other: nat)
    requires DistinctKeys(amap)
    requires Recorded(pv, amap, sampleCount, sampleIdx).Some?
    requires variant in pv && other != sampleIdx && other < |pv[variant]|
    ensures variant in Recorded(pv, amap, sampleCount, sampleIdx).value
    ensures other < |Recorded(pv, amap, sampleCount, sampleIdx).value[variant]|
    ensures Recorded(pv, amap, sampleCount, sampleIdx).value[variant][other] == pv[variant][other]
  {
    RecordedKeeps(pv, amap, sampleCount, sampleIdx);
    if variant in KeysOf(amap) {
      RecordedWrites(pv, amap, sampleCount, sampleIdx);
      var k :| 0 <= k < |amap| && amap[k].0 == variant;
    }
  }

  /** One more variant of the loop. */
  lemma RecordedStep(pv: SampleRows, amap: seq<(string, Abundance)>, sampleCount: nat, sampleIdx: nat, k: nat, r: SampleRows)
    requires k < |amap| && Recorded(pv, amap[..k], sampleCount, sampleIdx) == Some(r)
    ensures var row := VariantRow(r, amap[k].0, sampleCount);
            Recorded(pv, amap[..k + 1], sampleCount, sampleIdx)
            == if sampleIdx < |row| then Some(r[amap[k].0 := row[sampleIdx := amap[k].1]]) else None
    ensures CountSum(amap[..k + 1]) == CountSum(amap[..k]) + amap[k].1.0
    ensures TotalDepth(amap[..k + 1]) == amap[k].1.1 + 1.0
  {
    assert amap[..k + 1][..k] == amap[..k];
  }

  /** The inner loop over one position's variants. */
  method RecordSample(pv: SampleRows, amap: seq<(string, Abundance)>, sampleCount: nat, sampleIdx: nat)
    returns (ok: bool, r: SampleRows, variantDepth: real, totalDepth: real)
    ensures ok <==> Recorded(pv, amap, sampleCount, sampleIdx).Some?
    ensures ok ==> r == Recorded(pv, amap, sampleCount, sampleIdx).value
    ensures ok ==> variantDepth == CountSum(amap) && totalDepth == TotalDepth(amap)
  {
    r := pv;
    variantDepth, totalDepth := 0.0, 0.0;
    for k := 0 to |amap|
      invariant Recorded(pv, amap[..k], sampleCount, sampleIdx) == Some(r)
      invariant variantDepth == CountSum(amap[..k]) && totalDepth == TotalDepth(amap[..k])
    {
      RecordedStep(pv, amap, sampleCount, sampleIdx, k, r);
      var variant := amap[k].0;
      var a := amap[k].1;
      var row := VariantRow(r, variant, sampleCount);
      if sampleIdx >= |row| {
        RecordedFails(pv, amap, sampleCount, sampleIdx, k + 1);
        return false, r, variantDepth, totalDepth;
      }
      variantDepth := variantDepth + a.0;
      totalDepth := a.1 + 1.0;
      r := r[variant := row[sampleIdx := a]];
    }
    assert amap[..|amap|] == amap;
    ok := true;
  }

  /** Once a prefix of the loop panics, the whole loop does. */
  lemma {:induction false} RecordedFails(pv: SampleRows, amap: seq<(string, Abundance)>, sampleCount: nat, sampleIdx: nat, k: nat)
    requires k <= |amap|
    requires Recorded(pv, amap[..k], sampleCount, sampleIdx).None?
    ensures Recorded(pv, amap, sampleCount, sampleIdx).None?
    decreases |amap| - k
  {
    if k < |amap| {
      assert amap[..k + 1][..k] == amap[..k];
      RecordedFails(pv, amap, sampleCount, sampleIdx, k + 1);
    } else {
      assert amap[..k] == amap;
    }
  }

  // ---------------------------------------------------------------------------
  // All positions of `add_contig`: variant rows and one column of sums per position.

  /**
   * A quotient of the sums. The source divides `f32` values, so a position
   * without variants (a total depth of 0) gives infinity or NaN there; the
   * model writes 0.
   */
  function Ratio(a: real, b: real): real
  {
    if b == 0.0 then 0.0 else a / b
  }

  /**
   * The column of one position: the pseudocounted variant frequency, the
   * total depth, and the reference frequency.
   */
  function Column(amap: seq<(string, Abundance)>): (real, real, real)
  {
    var total := TotalDepth(amap);
    var counted := CountSum(amap);
    (Ratio(counted + 1.0, total), total, Ratio(total - counted, total))
  }

  /**
   * The variant and reference frequencies of a position with reads share
   * out one plus the pseudocount: they sum to 1 + 1/depth.
   */
  lemma ColumnFrequencies(amap: seq<(string, Abundance)>)
    requires TotalDepth(amap) > 0.0
    ensures Column(amap).1 == TotalDepth(amap)
    ensures Column(amap).0 + Column(amap).2 == 1.0 + 1.0 / TotalDepth(amap)
    ensures Column(amap).0 * TotalDepth(amap) == CountSum(amap) + 1.0
  {
    var t := TotalDepth(amap);
    var c := CountSum(amap);
    assert (c + 1.0) / t + (t - c) / t == (t + 1.0) / t;
  }

  /** The three sum rows have a slot for the column. */
  predicate ColumnFits(rows: Sums, j: nat)
  {
    |rows| >= 3 && j < |rows[0]| && j < |rows[1]| && j < |rows[2]|
  }

  /** The rows after writing column `j`, or None where an index panics. */
  function WriteColumn(rows: Sums, j: nat, col: (real, real, real)): (r: Option<Sums>)
    ensures r.Some? <==> ColumnFits(rows, j)
    ensures r.Some? ==> |r.value| == |rows| && forall i :: 0 <= i < |rows| ==> |r.value[i]| == |rows[i]|
  {
    if ColumnFits(rows, j) then
      var row0: seq<real> := rows[0][j := col.0];
      var row1: seq<real> := rows[1][j := col.1];
      var row2: seq<real> := rows[2][j := col.2];
      Some(rows[0 := row0][1 := row1][2 := row2])
    else None
  }

  /** The variant rows the loop starts from at a position: the existing ones, or none. */
  function PosRows(cv: ContigVariants, pos: int): SampleRows
  {
    Get(cv, pos, map[])
  }

  /**
   * The contig's variants and sum rows after the loop over its positions,
   * the `n`-th position writing column `n`; None where a write panics.
   */
  function RecordPositions(cv: ContigVariants, rows: Sums, positions: Positions, sampleCount: nat, sampleIdx: nat)
    : Option<(ContigVariants, Sums)>
  {
    if |positions| == 0 then Some((cv, rows))
    else
      var n := |positions| - 1;
      match RecordPositions(cv, rows, positions[..n], sampleCount, sampleIdx)
      case None => None
      case Some(prev) =>
        var pos := positions[n].0;
        var amap := positions[n].1;
        match Recorded(PosRows(prev.0, pos), amap, sampleCount, sampleIdx)
        case None => None
        case Some(pv) =>
          match WriteColumn(prev.1, n, Column(amap))
          case None => None
          case Some(sums) => Some((prev.0[pos := pv], sums))
  }

  /** One more position of the loop. */
  lemma PositionsStep(cv: ContigVariants, rows: Sums, positions: Positions, sampleCount: nat, sampleIdx: nat,
                      k: nat, cur: ContigVariants, sums: Sums)
    requires k < |positions| && RecordPositions(cv, rows, positions[..k], sampleCount, sampleIdx) == Some((cur, sums))
    ensures var pos := positions[k].0;
            var amap := positions[k].1;
            RecordPositions(cv, rows, positions[..k + 1], sampleCount, sampleIdx)
            == match Recorded(PosRows(cur, pos), amap, sampleCount, sampleIdx)
               case None => None
               case Some(pv) =>
                 match WriteColumn(sums, k, Column(amap))
                 case None => None
                 case Some(s') => Some((cur[pos := pv], s'))
  {
    assert positions[..k + 1][..k] == positions[..k];
  }

  /** Once a prefix of the positions panics, the whole loop does. */
  lemma {:induction false} PositionsFail(cv: ContigVariants, rows: Sums, positions: Positions, sampleCount: nat, sampleIdx: nat, k: nat)
    requires k <= |positions|
    requires RecordPositions(cv, rows, positions[..k], sampleCount, sampleIdx).None?
    ensures RecordPositions(cv, rows, positions, sampleCount, sampleIdx).None?
    decreases |positions| - k
  {
    if k < |positions| {
      assert positions[..k + 1][..k] == positions[..k];
      PositionsFail(cv, rows, positions, sampleCount, sampleIdx, k + 1);
    } else {
      assert positions[..k] == positions;
    }
  }

  /**
   * The loop over a contig's positions; `count` is the final `variant_index`,
   * the number of variant positions.
   */
  method RecordVariants(cv: ContigVariants, rows: Sums, positions: Positions, sampleCount: nat, sampleIdx: nat)
    returns (ok: bool, cv': ContigVariants, rows': Sums, count: nat)
    ensures ok <==> RecordPositions(cv, rows, positions, sampleCount, sampleIdx).Some?
    ensures ok ==> (cv', rows') == RecordPositions(cv, rows, positions, sampleCount, sampleIdx).value
    ensures ok ==> count == |positions|
  {
    cv', rows' := cv, rows;
    count := 0;
    while count < |positions|
      invariant count <= |positions|
      invariant RecordPositions(cv, rows, positions[..count], sampleCount, sampleIdx) == Some((cv', rows'))
    {
      PositionsStep(cv, rows, positions, sampleCount, sampleIdx, count, cv', rows');
      var pos := positions[count].0;
      var amap := positions[count].1;
      var fits, pv, variantDepth, totalDepth := RecordSample(PosRows(cv', pos), amap, sampleCount, sampleIdx);
      if !fits {
        PositionsFail(cv, rows, positions, sampleCount, sampleIdx, count + 1);
        return false, cv', rows', count;
      }
      var refDepth := totalDepth - variantDepth;
      variantDepth := variantDepth + 1.0;
      if !ColumnFits(rows', count) {
        PositionsFail(cv, rows, positions, sampleCount, sampleIdx, count + 1);
        return false, cv', rows', count;
      }
      rows' := rows'[0 := rows'[0][count := Ratio(variantDepth, totalDepth)]];
      rows' := rows'[1 := rows'[1][count := totalDepth]];
      rows' := rows'[2 := rows'[2][count := Ratio(refDepth, totalDepth)]];
      cv' := cv'[pos := pv];
      count := count + 1;
    }
    assert positions[..count] == positions;
    ok := true;
  }

  /** The positions' keys without the last position. */
  lemma PositionKeysStep(positions: Positions)
    requires |positions| > 0
    ensures KeysOf(positions) == KeysOf(positions[..|positions| - 1]) + {positions[|positions| - 1].0}
  {
    var n := |positions| - 1;
    assert forall i :: 0 <= i < n ==> positions[..n][i] == positions[i];
  }

  /**
   * The loop adds an entry for every listed position, keeps every other
   * position's rows, and keeps the number and lengths of the sum rows.
   */
  lemma {:induction false} RecordPositionsShape(cv: ContigVariants, rows: Sums, positions: Positions, sampleCount: nat, sampleIdx: nat)
    requires RecordPositions(cv, rows, positions, sampleCount, sampleIdx).Some?
    ensures var r := RecordPositions(cv, rows, positions, sampleCount, sampleIdx).value;
            && r.0.Keys == cv.Keys + KeysOf(positions)
            && (forall p :: p in cv && p !in KeysOf(positions) ==> r.0[p] == cv[p])
            && |r.1| == |rows|
            && (forall i :: 0 <= i < |rows| ==> |r.1[i]| == |rows[i]|)
  {
    if |positions| > 0 {
      RecordPositionsShape(cv, rows, positions[..|positions| - 1], sampleCount, sampleIdx);
      PositionKeysStep(positions);
    } else {
      assert KeysOf(positions) == {};
    }
  }

  /**
   * Column `j` of the sum rows holds position `j`'s frequencies and depth,
   * and every other entry of the rows is kept.
   */
  lemma {:induction false} RecordPositionsSums(cv: ContigVariants, rows: Sums, positions: Positions, sampleCount: nat, sampleIdx: nat)
    requires RecordPositions(cv, rows, positions, sampleCount, sampleIdx).Some?
    ensures var sums := RecordPositions(cv, rows, positions, sampleCount, sampleIdx).value.1;
            && |sums| == |rows|
            && (forall j :: 0 <= j < |positions| ==>
                  && ColumnFits(sums, j)
                  && sums[0][j] == Column(positions[j].1).0
                  && sums[1][j] == Column(positions[j].1).1
                  && sums[2][j] == Column(positions[j].1).2)
            && (forall i, j :: 0 <= i < |rows| && 0 <= j < |rows[i]| && (i >= 3 || j >= |positions|) ==>
                  j < |sums[i]| && sums[i][j] == rows[i][j])
  {
    if |positions| > 0 {
      var n := |positions| - 1;
      RecordPositionsSums(cv, rows, positions[..n], sampleCount, sampleIdx);
      RecordPositionsShape(cv, rows, positions[..n], sampleCount, sampleIdx);
      assert forall j :: 0 <= j < n ==> positions[..n][j] == positions[j];
    }
  }

  /** The loop has a slot for every write it makes. */
  predicate PositionsFit(cv: ContigVariants, rows: Sums, positions: Positions, sampleCount: nat, sampleIdx: nat)
  {
    && (|positions| == 0 || ColumnFits(rows, |positions| - 1))
    && forall j :: 0 <= j < |positions| ==> SamplesFit(PosRows(cv, positions[j].0), positions[j].1, sampleCount, sampleIdx)
  }

  /** Where the positions are distinct, the loop reads each position's rows as they were before it. */
  lemma PosRowsBefore(cv: ContigVariants, rows: Sums, positions: Positions, sampleCount: nat, sampleIdx: nat)
    requires DistinctKeys(positions) && |positions| > 0
    requires RecordPositions(cv, rows, positions[..|positions| - 1], sampleCount, sampleIdx).Some?
    ensures var n := |positions| - 1;
            var prev := RecordPositions(cv, rows, positions[..n], sampleCount, sampleIdx).value;
            && PosRows(prev.0, positions[n].0) == PosRows(cv, positions[n].0)
            && |prev.1| == |rows| && (forall i :: 0 <= i < |rows| ==> |prev.1[i]| == |rows[i]|)
  {
    var n := |positions| - 1;
    KeysOfPrefix(positions);
    RecordPositionsShape(cv, rows, positions[..n], sampleCount, sampleIdx);
  }

  /** Every write fits exactly when the writes of the prefix fit and those of the last position do. */
  lemma PositionsFitStep(cv: ContigVariants, rows: Sums, positions: Positions, sampleCount: nat, sampleIdx: nat)
    requires |positions| > 0
    ensures var n := |positions| - 1;
            PositionsFit(cv, rows, positions, sampleCount, sampleIdx)
            <==> && PositionsFit(cv, rows, positions[..n], sampleCount, sampleIdx)
                 && ColumnFits(rows, n)
                 && SamplesFit(PosRows(cv, positions[n].0), positions[n].1, sampleCount, sampleIdx)
  {
    var n := |positions| - 1;
    assert forall j :: 0 <= j < n ==> positions[..n][j] == positions[j];
  }

  /**
   * With distinct positions and variants, the loop succeeds exactly when
   * every write it makes has a slot.
   */
  lemma {:induction false} RecordPositionsSucceeds(cv: ContigVariants, rows: Sums, positions: Positions, sampleCount: nat, sampleIdx: nat)
    requires WellKeyed(positions)
    ensures RecordPositions(cv, rows, positions, sampleCount, sampleIdx).Some?
            <==> PositionsFit(cv, rows, positions, sampleCount, sampleIdx)
  {
    if |positions| > 0 {
      var n := |positions| - 1;
      var init := positions[..n];
      KeysOfPrefix(positions);
      assert WellKeyed(init) by {
        assert forall j :: 0 <= j < n ==> init[j] == positions[j];
      }
      PositionsFitStep(cv, rows, positions, sampleCount, sampleIdx);
      RecordPositionsSucceeds(cv, rows, init, sampleCount, sampleIdx);
      RecordedSucceeds(PosRows(cv, positions[n].0), positions[n].1, sampleCount, sampleIdx);
      if RecordPositions(cv, rows, init, sampleCount, sampleIdx).Some? {
        PosRowsBefore(cv, rows, positions, sampleCount, sampleIdx);
      }
    }
  }

  /**
   * With distinct positions, each listed position's rows are the rows the
   * sample's loop records into that position's rows from before.
   */
  lemma {:induction false} RecordPositionsVariants(cv: ContigVariants, rows: Sums, positions: Positions, sampleCount: nat, sampleIdx: nat)
    requires DistinctKeys(positions)
    requires RecordPositions(cv, rows, positions, sampleCount, sampleIdx).Some?
    ensures var r := RecordPositions(cv, rows, positions, sampleCount, sampleIdx).value.0;
            forall j :: 0 <= j < |positions| ==>
              && positions[j].0 in r
              && Recorded(PosRows(cv, positions[j].0), positions[j].1, sampleCount, sampleIdx) == Some(r[positions[j].0])
  {
    if |positions| > 0 {
      var n := |positions| - 1;
      var init := positions[..n];
      KeysOfPrefix(positions);
      RecordPositionsVariants(cv, rows, init, sampleCount, sampleIdx);
      PosRowsBefore(cv, rows, positions, sampleCount, sampleIdx);
      assert forall j :: 0 <= j < n ==> init[j] == positions[j];
    }
  }
}
