# Lorikeet population matrix, strain emission, codon tables and NNDSVD seeding in Dafny

This project models the core of Lorikeet's strain-genotyping pipeline:

- **The population matrix** (`PileupContigMatrix`), filled one sample and one contig at a time:
  - `new_matrix`, `setup`, `add_sample`, `add_kmers` and `add_contig`;
  - the per-sample coverage, variance and mean-genotype slots;
  - the per-variant (count, depth) rows;
  - the three pseudocounted sum rows (variant frequency, depth, reference frequency) and the variant counts;
  - the k-mer table;
  - the set-union merge of SNP and indel read support.
- **`generate_distances`**, in four parts:
  - the per-variant feature vectors;
  - the choice of the factorisation rank from the residual of each run;
  - the routing of variants to strains by their posteriors;
  - the strain genomes written one FASTA record per contig, 60 characters per line.
- **`generate_genotypes`**: the discovery of the k cluster roots of a dendrogram.
- **Codon tables**: NCBI translation tables 1 and 11, the amino-acid and start-codon maps built from them, and the cutting of a sequence into codons.
- **NNDSVD seeding** of the non-negative factorisation.

The model is split into these modules:

- `Wrappers`: `Option` and `Result`.
- `Chunking`: Rust's `chunks(n)`.
- `Text`: decimal rendering.
- `PileupMatrix`: the pieces of `add_contig` and `add_kmers`.
- `ContigMatrix`: the matrix state and the `Matrix` class.
- `VariantFeatures`
- `RankSelection`
- `PosteriorRouting`
- `StrainEmission`
- `RootDiscovery`
- `CodonStructs`
- `Seeding`

How the source's types are modelled:

- `f32` values are reals.
- `HashMap` and `HashSet` iteration orders are sequences supplied by the caller, or keys chosen by the model.
- Work that `rayon` runs in parallel is sequential here. Each parallel loop writes disjoint cells or appends to a collection whose order is the caller's choice.
- A panic of the source is a `None`, an `Err` or a `false` result. The process aborts after a panic, so the model does not describe the state it leaves behind.

Two behaviours of the code are worth stating outright:

- The reference frequency of a position is `(depth + 1 - count) / (depth + 1)`, where depth is the last abundance's depth. So (count, depth) = (5, 10), (0, 8) and (9, 9) give 6/11, 9/9 and 1/10 (`ColumnFrequencies`).
- `add_kmers` skips a contig only when `target_lengths` already has it, and only `add_contig` sets `target_lengths`. A second `add_kmers` call for the same contig therefore writes its counts again (`ContigMatrix.Matrix.AddKmers`).

## Model

| member | source | states |
|---|---|---|
| Chunking.Chunks | src/codon_structs.rs:113 | every chunk is non-empty and at most n long; all but the last have exactly n elements |
| Chunking.ChunksCount | src/codon_structs.rs:113 | there are ceil(len / n) chunks |
| Chunking.ChunksFlatten | src/pileup_matrix.rs:792-795 | concatenating the chunks gives back the input |
| Chunking.ChunkAt | src/pileup_matrix.rs:792 | chunk i is the slice of the input starting at i * n |
| Text.DecimalText | src/codon_structs.rs:77 | `to_string` of an unsigned value: digits only, one digit below 10, two digits from 10 to 99 |
| Text.DecimalRoundTrip | src/pileup_matrix.rs:786-789 | reading the decimal text back gives the number |
| Text.SignedText | src/pileup_matrix.rs:786-789 | a leading minus sign exactly for negative values, followed by the magnitude's digits |
| RankSelection.CandidateRanks | src/pileup_matrix.rs:506-527 | fewer than 2 variants give no runs; otherwise the runs use ranks min(4,n)+1 .. min(25,n), all between 5 and 25 |
| RankSelection.CandidateRankRange | src/pileup_matrix.rs:506-507 | 2..4 variants give no rank, 4..25 variants give ranks 5..n, and 25 or more give the 21 ranks 5..25 |
| RankSelection.Residual | src/pileup_matrix.rs:551-557 | defined as the parsed value, or 0 when the output does not parse; FailedRunSelected states what that 0 does to the rank selection |
| RankSelection.FailedRunSelected | src/pileup_matrix.rs:551-577 | once the scan reaches a run whose output did not parse, the picked rank is at least that run's and the picked residual is 0, so no later run with a positive residual can win |
| RankSelection.FailedRunExample | src/pileup_matrix.rs:551-577 | residuals 5.0, a failed run and 1.0 select the failed run's rank 6, not the smaller real residual after it |
| RankSelection.InnerThreadsAsWritten | src/pileup_matrix.rs:512-515 | the thread split as written divides by zero exactly when the rank span is 1; otherwise it is at least 1 |
| RankSelection.InnerThreadsFailsForFiveVariants | src/pileup_matrix.rs:506-515 | five variants pass the guard and then divide by zero |
| RankSelection.InnerThreadsUnderflowsForFewVariants | src/pileup_matrix.rs:506-512 | two to four variants give an empty rank range, and the divisor underflows |
| RankSelection.InnerThreads | src/pileup_matrix.rs:512-515 | the intended split is at least 1 for every variant count, and is the written quotient when that quotient is defined |
| RankSelection.InnerThreadsAgrees | src/pileup_matrix.rs:512-515 | with two or more ranks, the code as written succeeds and agrees with the intended split |
| RankSelection.DescentLength | src/pileup_matrix.rs:567-577 | the longest non-increasing prefix of the residuals: it is empty only for no residuals, and is followed by a strict rise |
| RankSelection.SelectRank | src/pileup_matrix.rs:562-577 | the loop picks rank min_rank + (length of the non-increasing prefix); its residual is at most every residual of that prefix; 0 when there are no residuals |
| RankSelection.SelectionExamples | src/pileup_matrix.rs:567-577 | a dip followed by a rise, a first-step rise, and no residuals select ranks 7, 5 and 0 |
| VariantFeatures.Freqs | src/pileup_matrix.rs:390-414 | one frequency per sample; it is count + 1 when the count is positive and 1 otherwise, so it exceeds 1 exactly for samples that saw the variant |
| VariantFeatures.Depths | src/pileup_matrix.rs:394-412 | defined as depth + 1 for every sample with a positive count, in sample order; DepthsLength and DepthsPseudocounted state its length and bounds |
| VariantFeatures.DepthsLength | src/pileup_matrix.rs:394-412 | one depth per sample with a positive count; the list is shorter than the samples exactly when some count is not positive |
| VariantFeatures.DepthsPseudocounted | src/pileup_matrix.rs:408 | every collected depth is at least 1 |
| VariantFeatures.SampleFeatures | src/pileup_matrix.rs:389-414 | the per-sample loop returns the depths and frequencies; it fails exactly when a positive count's index is outside the coverage or sample vectors |
| VariantFeatures.FeatureRows | src/pileup_matrix.rs:381-426 | at most one row per entry; every row carries the contig key of the outer loop |
| VariantFeatures.FeatureRowsSound | src/pileup_matrix.rs:387-425 | every row comes from an entry without 'R', with that entry's depths and frequencies and the contig's key |
| VariantFeatures.FeatureRowsCount | src/pileup_matrix.rs:387-425 | there is exactly one row per entry without 'R' |
| VariantFeatures.CoverageLength | src/pileup_matrix.rs:372-376 | defined as the lookup that fails on a missing or empty coverage vector and otherwise gives its length; ContigFeatures and CollectFeatures state that the loop fails exactly when a contig does not fit |
| VariantFeatures.ContigFeatures | src/pileup_matrix.rs:371-428 | one contig's rows are the rows of its entries; it fails exactly when the contig does not fit |
| VariantFeatures.CollectFeatures | src/pileup_matrix.rs:371-429 | succeeds exactly when every contig fits, and then gives every contig's rows in order, each tagged with its contig's key |
| PosteriorRouting.CastI32 | src/pileup_matrix.rs:644 | `as i32` rounds toward zero inside the i32 range; a value at or beyond i32::MAX + 1 gives i32::MAX and one at or below i32::MIN - 1 gives i32::MIN |
| PosteriorRouting.DistinctClusters | src/pileup_matrix.rs:620-625 | k is the number of distinct cast cluster ids, and is positive when there are predictions |
| PosteriorRouting.Insert | src/pileup_matrix.rs:650-657 | the nested entry chain adds the bucket key |
| PosteriorRouting.InsertHas | src/pileup_matrix.rs:650-657 | the insert adds exactly one call and keeps every other call |
| PosteriorRouting.RouteRows | src/pileup_matrix.rs:641-691 | defined as the exclusive map, the shared map, the counts and the feature sums after the first n rows; RouteRowsCorrect states what each map holds |
| PosteriorRouting.RouteRowsCorrect | src/pileup_matrix.rs:641-691 | after n rows, each side's map holds exactly the calls of the rows on that side under their keys; counts are key multiplicities and features are weight sums |
| PosteriorRouting.RouteRowsSide | src/pileup_matrix.rs:641-691 | one side's map holds a call exactly when some row on that side routed it there |
| PosteriorRouting.RouteRowsTallied | src/pileup_matrix.rs:646-689 | counts and features after n rows are the multiplicity and the summed weight of each key |
| PosteriorRouting.Route | src/pileup_matrix.rs:637-691 | fails exactly when predictions has fewer rows than variants; otherwise every variant is in the bucket its row's key names, on its side of the 1/k threshold |
| PosteriorRouting.RouteAll | src/pileup_matrix.rs:641-691 | the routing loop computes the state after all rows |
| PosteriorRouting.RouteRow | src/pileup_matrix.rs:642-690 | one loop iteration is one step of the row-by-row definition |
| PosteriorRouting.CountsTotal | src/pileup_matrix.rs:648-688 | each key's count is the number of rows routed to it, and the counts add up to the number of variants |
| PosteriorRouting.Key | src/pileup_matrix.rs:643-667 | a bucket key lies between i32::MIN + 1 and i32::MAX + 1, and a row below the threshold gets key 0 |
| PosteriorRouting.KeyRule | src/pileup_matrix.rs:643-667 | a row is exclusive exactly when posterior * k >= 1; its key is then cluster id + 1, and 0 otherwise |
| PosteriorRouting.RoutingExample | src/pileup_matrix.rs:637-667 | with three clusters, a posterior of 0.4 goes to its own strain and 0.3 to the shared bucket |
| StrainEmission.Merge | src/pileup_matrix.rs:746-751 | the shared calls are added and replace the strain's calls at the same positions |
| StrainEmission.MergeIdempotent | src/pileup_matrix.rs:744-751 | extending again with the same shared calls changes nothing |
| StrainEmission.CallText | src/pileup_matrix.rs:762-776 | defined as the first character of an 'N' call, an insertion without its reference base, or the call itself; CallTextShape states its shape, and ApplyCall, SnpOnlySubstitutes and SkippedWindowIgnored its effect on the strain |
| StrainEmission.CallTextShape | src/pileup_matrix.rs:762-776 | the text is never longer than the call and never empty for a non-empty call; an 'N' call emits a one-character prefix of itself; any other call emits a suffix of itself, one character shorter when it has more than one |
| StrainEmission.Consumed | src/pileup_matrix.rs:762-765 | a call consumes at least its own position |
| StrainEmission.Strain | src/pileup_matrix.rs:735-785 | past the end nothing is emitted, and the number of applied calls is at most the number of positions left |
| StrainEmission.NoCallsUnchanged | src/pileup_matrix.rs:735-779 | a contig without calls is copied unchanged, with 0 variations |
| StrainEmission.SnpOnlySubstitutes | src/pileup_matrix.rs:753-779 | with single-base calls only, the strain is the reference with each called base replaced, and every call is counted |
| StrainEmission.StrainLocal | src/pileup_matrix.rs:735-785 | the strain from a position depends only on the calls from that position on |
| StrainEmission.SkippedWindowIgnored | src/pileup_matrix.rs:762-766 | calls inside the window an applied 'N' call skips have no effect |
| StrainEmission.EmitContig | src/pileup_matrix.rs:727-785 | a contig without calls is emitted unchanged; otherwise the walk gives the strain of its calls merged with the shared calls, and the genotype keeps the merge |
| StrainEmission.Visit | src/pileup_matrix.rs:736-784 | one visited position keeps the walk's output plus the rest of the strain equal to the whole strain |
| StrainEmission.ExtendShared | src/pileup_matrix.rs:746-751 | the contig's calls become the merge with the shared calls, and nothing else changes |
| StrainEmission.ExtendStable | src/pileup_matrix.rs:744-751 | once merged, a contig's calls stay the same under every later extension |
| StrainEmission.ApplyCall | src/pileup_matrix.rs:753-779 | the text, the applied count and the positions consumed at one position are exactly one step of the strain |
| StrainEmission.Header | src/pileup_matrix.rs:786-789 | defined as `>`, the name, `_strain_`, the signed strain index, a tab, `#variants_` and the count; HeaderFields states how the fields read back |
| StrainEmission.HeaderFields | src/pileup_matrix.rs:786-789 | the header starts with `>`, the contig name and `_strain_`, then the signed strain index, then `\t#variants_`, and its last field reads back as the number of applied calls |
| StrainEmission.RecordOf | src/pileup_matrix.rs:727-795 | the lines are non-empty and at most 60 characters; they concatenate to the reference for a contig without calls and to the strain walked over the merged calls otherwise; the header carries the number of applied calls |
| StrainEmission.CurrentRecord | src/pileup_matrix.rs:744-751 | a contig's record is the same whether built from the updated calls or the original ones |
| StrainEmission.EmitOne | src/pileup_matrix.rs:727-795 | one contig's record, or an error exactly when the contig has no name |
| StrainEmission.EmitStrain | src/pileup_matrix.rs:727-796 | over an iteration order of the contigs (every contig, only contigs, one entry per contig): one record per contig in that order, as many records as contigs, each built from the strain's original calls; fails exactly when some contig has no name |
| StrainEmission.EnumerationCovers | src/pileup_matrix.rs:727 | an iteration order of a map's keys lists every key |
| StrainEmission.EnumerationDistinct | src/pileup_matrix.rs:727 | an iteration order of a map's keys never repeats a key |
| StrainEmission.WrittenCovers | src/pileup_matrix.rs:714-715 | over an order listing every strain, every strain other than 0 gets a file |
| StrainEmission.Written | src/pileup_matrix.rs:714-715 | the written strains are exactly the non-zero strain indices |
| StrainEmission.EmitAll | src/pileup_matrix.rs:714-798 | over iteration orders of the strains and of the contigs: one file per strain other than 0, every such strain gets one, each file holds one record per contig built from that strain's own calls; fails exactly when a file is written and some contig has no name |
| RootDiscovery.InternalIffSplits | src/pileup_matrix.rs:887 | a label is greater than n_1 exactly when it covers two or more observations |
| RootDiscovery.MaxLabel | src/pileup_matrix.rs:868-876 | the largest label and the index of its first occurrence |
| RootDiscovery.FirstSplit | src/pileup_matrix.rs:861-866 | the two sides of the last merge partition the observations |
| RootDiscovery.PartitionSize | src/pileup_matrix.rs:863-879 | a partition has at most n_1 + 1 labels |
| RootDiscovery.ExpandPartition | src/pileup_matrix.rs:868-877 | replacing an internal label by the two sides of its merge keeps a partition |
| RootDiscovery.RootLabels | src/pileup_matrix.rs:855-882 | k = 1 gives the root 2 n_1; otherwise it succeeds exactly when k <= n_1 + 1, with k labels that partition the observations and that all lie below the k - 1 highest merges (label + k <= 2 n_1 + 1), which is the cut the largest-first expansion makes |
| CodonStructs.GetTranslationTable | src/codon_structs.rs:24-49 | tables 1 and 11 have five 64-entry rows; any other id is an error |
| CodonStructs.TablesDifferOnlyInStarts | src/codon_structs.rs:26-43 | tables 1 and 11 share the amino-acid and base rows and differ in the start row |
| CodonStructs.CodonKey | src/codon_structs.rs:77-78 | a key ends with the second and third bases, and every character before them is a decimal digit |
| CodonStructs.CodonKeyShape | src/codon_structs.rs:77-78 | a key is the first base's decimal byte value followed by the other two bases, four characters long |
| CodonStructs.CodonKeyExample | src/codon_structs.rs:77-78 | ATG has the key "65TG" |
| CodonStructs.CodonKeys | src/codon_structs.rs:74-78 | a table has 64 codon keys |
| CodonStructs.CodonKeysDistinct | src/codon_structs.rs:74-78 | the 64 keys of tables 1 and 11 are pairwise distinct |
| CodonStructs.GroupPartition | src/codon_structs.rs:79-82 | with distinct keys, every key lies in the group of its own label and in no other |
| CodonStructs.CodonMapsPartition | src/codon_structs.rs:70-86 | both maps partition the 64 distinct keys by amino acid and by start marker |
| CodonStructs.Table1StopCodons | src/codon_structs.rs:28 | table 1's stop group is TAA, TAG and TGA |
| CodonStructs.Table1StartCodons | src/codon_structs.rs:29 | table 1's start group is TTG, CTG and ATG |
| CodonStructs.Table11StartCodons | src/codon_structs.rs:38 | table 11's start group adds ATT, ATC, ATA and GTG |
| CodonStructs.CodonTable.Setup | src/codon_structs.rs:53-58 | both maps start empty |
| CodonStructs.CodonTable.GetCodonTable | src/codon_structs.rs:70-86 | for tables 1 and 11 the maps become the amino-acid and start groups of the codon keys; any other id changes nothing and fails |
| CodonStructs.Revcomp | src/codon_structs.rs:116 | the reverse complement: the complement of the input read backwards |
| CodonStructs.GetCodons | src/codon_structs.rs:109-121 | fails exactly when the frame is past the end |
| CodonStructs.ForwardCodons | src/codon_structs.rs:112-113 | forward codons concatenate to the sequence from the frame on, have length 3 except a shorter last one, and number ceil((len - frame) / 3) |
| CodonStructs.ReverseCodons | src/codon_structs.rs:115-118 | reverse codons are the forward codons of the reverse complement |
| Seeding.Pos | src/factorization/seeding.rs:126-136 | keeps the non-negative entries and zeroes the others |
| Seeding.Neg | src/factorization/seeding.rs:138-148 | negates the negative entries and zeroes the others |
| Seeding.PosNegSplit | src/factorization/seeding.rs:126-148 | both parts are non-negative and disjoint, and their difference is the vector |
| Seeding.ChoosePairing | src/factorization/seeding.rs:58-69 | picks the positive parts exactly when their norm product is at least that of the negative parts; the chosen term is the larger product |
| Seeding.PairingParts | src/factorization/seeding.rs:58-93 | the chosen parts are non-negative and vanish where the vector has the other sign |
| Seeding.Factor | src/factorization/seeding.rs:73-80 | one value per entry of the part |
| Seeding.ComponentColumn | src/factorization/seeding.rs:73-90 | column i of W has one entry per row |
| Seeding.ComponentRow | src/factorization/seeding.rs:74-92 | row i of H has one entry per column |
| Seeding.WEntry | src/factorization/seeding.rs:45-92 | defined as entry (a, b) of W before the clamp: sqrt(s_0) times abs(u_0[a]) in column 0, and component b's column otherwise |
| Seeding.HEntry | src/factorization/seeding.rs:45-92 | defined as entry (a, b) of H before the clamp: sqrt(s_0) times abs(v_0[b]) in row 0, and component a's row otherwise |
| Seeding.LeadingComponentNonnegative | src/factorization/seeding.rs:45-48 | column 0 of W and row 0 of H are non-negative |
| Seeding.Clamp | src/factorization/seeding.rs:98-112 | a value below the threshold becomes 0 and every other value is kept |
| Seeding.ClampIdempotent | src/factorization/seeding.rs:98-112 | clamping twice equals clamping once; with a positive threshold the result is non-negative |
| Seeding.ClampInPlace | src/factorization/seeding.rs:98-104 | every entry of the matrix is clamped in place |
| Seeding.WriteColumn | src/factorization/seeding.rs:77-78 | column i is assigned and every other column is unchanged |
| Seeding.WriteRow | src/factorization/seeding.rs:79-80 | row i is assigned and every other row is unchanged |
| Seeding.WriteLeading | src/factorization/seeding.rs:39-48 | column 0 of W and row 0 of H come from the leading triplet |
| Seeding.WriteComponents | src/factorization/seeding.rs:55-94 | each column i of W and row i of H comes from component i |
| Seeding.Initialize | src/factorization/seeding.rs:28-121 | `None` exits with status 1; a rank of 0 or above the number of singular values fails; otherwise W and H have the rank's shape and hold the clamped NNDSVD entries |
| PileupMatrix.SetSlot | src/pileup_matrix.rs:194-204 | the sample's slot holds the value; other slots are kept (zeros in a fresh vector) and other contigs are unchanged |
| PileupMatrix.SetSlotOverwrites | src/pileup_matrix.rs:194-204 | a repeat write for the same contig and sample keeps only the last value |
| PileupMatrix.SetSlotSamplesCommute | src/pileup_matrix.rs:194-204 | writes for two different samples commute |
| PileupMatrix.Keep | src/pileup_matrix.rs:205-207 | `or_insert` adds the key only when it is missing and keeps every existing value |
| PileupMatrix.KeepFirstWins | src/pileup_matrix.rs:205-207 | a later insert for the same key changes nothing |
| PileupMatrix.NestedUnion | src/pileup_matrix.rs:279-327 | the merged support has the positions of either input, and at each position the alleles of either input |
| PileupMatrix.NestedUnionMembership | src/pileup_matrix.rs:279-327 | after the merge, a read supports an allele exactly when it did in either input |
| PileupMatrix.NestedUnionIdempotent | src/pileup_matrix.rs:279-302 | merging the same input twice equals merging it once |
| PileupMatrix.NestedUnionOrder | src/pileup_matrix.rs:279-327 | the order in which two inputs are merged does not matter |
| PileupMatrix.NestedUnionEmpty | src/pileup_matrix.rs:281-282 | the replace-when-empty branch gives the union too |
| PileupMatrix.MergeSupport | src/pileup_matrix.rs:279-302 | the merge gives the position-wise, allele-wise union |
| PileupMatrix.MergePositions | src/pileup_matrix.rs:284-301 | the position loop gives the union |
| PileupMatrix.MergeAlleles | src/pileup_matrix.rs:287-299 | one position's merge gives the allele-wise union |
| PileupMatrix.MergeReadSets | src/pileup_matrix.rs:290-298 | the allele loop gives the allele-wise union |
| PileupMatrix.WithCounts | src/pileup_matrix.rs:147-153 | the table after the k-mer loop holds the old k-mers and the counted ones |
| PileupMatrix.WithCountsWrites | src/pileup_matrix.rs:147-153 | each counted k-mer gets its count in the contig's column and keeps its other columns; other k-mers keep their rows |
| PileupMatrix.WithCountsCommute | src/pileup_matrix.rs:147-153 | counts for two different contigs commute |
| PileupMatrix.WithCountsIdempotent | src/pileup_matrix.rs:147-153 | counting the same contig twice equals counting it once |
| PileupMatrix.CountKmers | src/pileup_matrix.rs:149-153 | the k-mer loop fails exactly when a column index is outside a row; otherwise it writes the counts |
| PileupMatrix.Recorded | src/pileup_matrix.rs:224-234 | the variant rows after the loop over one position's abundances, or none where a write panics; a success keeps every earlier variant |
| PileupMatrix.RecordedKeeps | src/pileup_matrix.rs:224-234 | the variant loop adds the listed variants and keeps every unlisted row |
| PileupMatrix.RecordedSucceeds | src/pileup_matrix.rs:228-233 | with distinct variants, the loop panics exactly when some row has no slot for the sample |
| PileupMatrix.RecordedWrites | src/pileup_matrix.rs:228-233 | each listed variant's row holds the sample's (count, depth) and keeps its other slots |
| PileupMatrix.OtherSamplesKept | src/pileup_matrix.rs:229-233 | recording a sample changes no other sample's slot |
| PileupMatrix.RecordSample | src/pileup_matrix.rs:226-234 | the inner loop gives the recorded rows, the summed counts and the last depth + 1 |
| PileupMatrix.Ratio | src/pileup_matrix.rs:243-245 | defined as the quotient, and 0 when the divisor is 0 |
| PileupMatrix.Column | src/pileup_matrix.rs:235-245 | defined as ((count sum + 1) / total, total, (total - count sum) / total), with total = last depth + 1 |
| PileupMatrix.ColumnFrequencies | src/pileup_matrix.rs:235-245 | the depth column is the total depth; the variant and reference frequencies sum to 1 + 1/depth; the variant frequency times the depth is the count sum + 1 |
| PileupMatrix.WriteColumn | src/pileup_matrix.rs:243-245 | the column is written exactly when all three rows have the index, and no row changes length |
| PileupMatrix.RecordPositions | src/pileup_matrix.rs:222-248 | defined as the variants and sum rows after the loop over positions, position n writing column n, or none where a write panics; RecordPositionsShape, RecordPositionsSums, RecordPositionsSucceeds and RecordPositionsVariants state its properties |
| PileupMatrix.RecordVariants | src/pileup_matrix.rs:222-248 | the position loop gives the recorded rows and sums, and the final index equals the number of positions |
| PileupMatrix.RecordPositionsShape | src/pileup_matrix.rs:223-248 | every listed position gets an entry, other positions are kept, and the sum rows keep their shape |
| PileupMatrix.RecordPositionsSums | src/pileup_matrix.rs:223-248 | column j holds position j's frequencies and depth, and every other entry is kept |
| PileupMatrix.RecordPositionsSucceeds | src/pileup_matrix.rs:223-248 | with distinct positions and variants, the loop succeeds exactly when every write has a slot |
| PileupMatrix.RecordPositionsVariants | src/pileup_matrix.rs:223-234 | with distinct positions, each listed position's rows are the sample's loop applied to the rows that position had before the call |
| ContigMatrix.FreshSums | src/pileup_matrix.rs:216-217 | defined as three zero rows with one entry per total variant; AddContigSums states the sum rows after a write, which start from these rows (through StartSums) when the contig has none yet |
| ContigMatrix.AddContigSpec | src/pileup_matrix.rs:159-335 | the state after `add_contig`, or none where it panics; success needs the three slots to fit, and sample names, k-mer table, dendrogram and clusters stay unchanged |
| ContigMatrix.RecordContig | src/pileup_matrix.rs:209-277 | the variant part succeeds for a contig without variants; on success the contig has a variants entry, a sums entry for the sample, and a count equal to its number of positions (0 without variants) |
| ContigMatrix.AddContigSucceeds | src/pileup_matrix.rs:194-248 | `add_contig` succeeds exactly when the three slots fit and, with variants, every variant and column write fits |
| ContigMatrix.AddContigSlots | src/pileup_matrix.rs:194-204 | mean genotype, variance and coverage go to the sample's slot and nowhere else |
| ContigMatrix.AddContigFirstWritten | src/pileup_matrix.rs:205-207 | name, length and contig bytes keep their first value; sample names, k-mers, dendrogram and clusters are unchanged |
| ContigMatrix.AddContigSums | src/pileup_matrix.rs:215-269 | with variants, column j of the sample's sums is position j's frequencies and depth, and the count is the number of positions |
| ContigMatrix.AddContigVariants | src/pileup_matrix.rs:209-234 | with variants, every listed (variant, abundance) is in the sample's slot of that variant's row |
| ContigMatrix.AddContigNoVariants | src/pileup_matrix.rs:270-277 | without variants, the sums are three rows of a single 0 unless already present, and the count is 0 |
| ContigMatrix.AddContigReadSupport | src/pileup_matrix.rs:279-327 | for indels and SNPs, a read supports an allele afterwards exactly when it did before or does in the input |
| ContigMatrix.AddContigRepeatSlots | src/pileup_matrix.rs:194-204 | a repeat call's slot values replace the first call's |
| ContigMatrix.AddContigRepeatKeeps | src/pileup_matrix.rs:205-207 | a repeat call keeps the first name, length and bytes |
| ContigMatrix.AddContigRepeatMerges | src/pileup_matrix.rs:279-327 | a repeat call with the same read support leaves both support maps unchanged |
| ContigMatrix.RecordContigMethod | src/pileup_matrix.rs:209-277 | computes the variants, sums and counts of the contig's variant part |
| ContigMatrix.Matrix.NewMatrix | src/pileup_matrix.rs:47-66 | every field starts empty |
| ContigMatrix.SetupState | src/pileup_matrix.rs:100-127 | defined as the state with coverages, genotypes, variants, both support maps, contigs, names, lengths, sample names and k-mers emptied, and the other six fields kept |
| ContigMatrix.Matrix.Setup | src/pileup_matrix.rs:100-127 | empties the ten fields `setup` names and keeps the other six |
| ContigMatrix.Matrix.AddSample | src/pileup_matrix.rs:129-138 | appends the name and changes nothing else |
| ContigMatrix.Matrix.AddKmers | src/pileup_matrix.rs:140-157 | a no-op for a contig with a target length; otherwise fails exactly when a column index panics, and on success writes the counts |
| ContigMatrix.Matrix.AddContig | src/pileup_matrix.rs:159-335 | succeeds exactly when the state-level definition of `add_contig` does, and then the state is that definition's result |

## Left out

- RootDiscovery.RootLabels: the order of the labels is not stated. `enumerate` at line 886 uses it as the haplotype index, and the haplotype construction is not modelled.
- ContigMatrix.Matrix.AddKmers: a panic leaves the state undescribed. The same holds for ContigMatrix.Matrix.AddContig, PileupMatrix.RecordSample, PileupMatrix.RecordVariants and PileupMatrix.CountKmers when they report failure.
- ContigMatrix.AddContigSums: does not restate that the other entries of the sum rows are kept. PileupMatrix.RecordPositionsSums states it for the loop that writes them.
- ContigMatrix.AddContigRepeatMerges: repeat calls are shown idempotent for the read support, slots and names only. Variant rows and sums are not proved idempotent under a repeat call.
- Seeding.Initialize: the SVD, vector norms, square roots, f32 division and the e^-11 threshold are abstract inputs, so the entries are stated in terms of them. The SVD's `unwrap` failures are not modelled.
- PosteriorRouting.Key: a cluster id that saturates at i32::MAX makes `rank + 1` overflow. The model keeps the unbounded sum.
- f32 arithmetic is exact real arithmetic. A position without variants has a total depth of 0. The source then divides by 0 and gets infinity or NaN; `Ratio` gives 0.
- Positions are unbounded integers. The `pos as i32` cast of the emission loop and the `tid as usize` cast of `add_kmers` appear only as bounds: a negative contig id never fits a k-mer row.
- The UTF-8 conversions are not modelled: the target name (`from_utf8(..).unwrap()`), codon bases and strain text. Contig and codon bytes are characters.
- Which variant of a call set the emission loop applies is the parameter `pick`, because `HashSet` order is unspecified. Iteration orders of `prediction_variants`, `contigs`, `variant_info_all` and the abundance maps are sequences given by the caller.
- Not modelled in `generate_distances`, because it is I/O or a foreign process:
  - the temporary directory, FIFO and temp files;
  - `get_condensed_distances`;
  - the `nmf.py` runs and their exit handling;
  - reading the prediction matrix from `.npy`;
  - the printing.
  The residual text of each run and the prediction rows are inputs.
- Not modelled in `generate_distances`, because the f32 logarithm and exponential are not modelled or the values are never read:
  - the geometric-mean accumulators and `geom_mean`;
  - the unused `abundance` sum;
  - the log-posterior sums (`prediction_map`) and `prediction_geom`;
  - the max-strain block, a lazy iterator that is never evaluated.
- `generate_genotypes` is modelled up to the cluster root labels. The following are not modelled:
  - the `dendro_ids` regrouping;
  - the `Haplotype` construction and `add_variants_per_genome`;
  - the leaf-root bookkeeping;
  - everything after the haplotype loop.
  The hierarchical clustering that builds the dendrogram is an input.
- Also not modelled:
  - `print_matrix`, `print_variant_stats` and `print_kmers`, which only write output;
  - `find_mutations`, which has an empty loop body and whose only effects are slice and parse panics;
  - `Seed::new_nndsvd`, which only stores the rank (`Seed.Nndsvd`);
  - the `dna::revcomp` complement table, which is the parameter `complement`.
- The matrix's sixteen fields are held as one record value in the class field `state`. Each method replaces the fields it changes and states the whole new state.

## Findings

| source | as written | input that shows it | evidently intended | confidence | as-written member | corrected member |
|---|---|---|---|---|---|---|
| src/pileup_matrix.rs:512 | `threads / (max_rank - min_rank - 1)` divides by zero when the rank span is 1. It underflows `usize` when the span is 0. | 5 variants: max_rank = 5, min_rank = 4, divisor 0. 2 to 4 variants: span 0. | A per-run thread count of at least 1 for every variant count that passes the `len() > 1` guard | not executed | RankSelection.InnerThreadsAsWritten, RankSelection.InnerThreadsFailsForFiveVariants, RankSelection.InnerThreadsUnderflowsForFewVariants | RankSelection.InnerThreads |
