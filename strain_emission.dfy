/**
 * Writing the strain genomes at the end of `generate_distances`: every strain
 * other than bucket 0 walks each reference contig, applying its calls, and
 * emits a header line and the sequence wrapped at 60 characters.
 *
 * Which variant of a call set is applied (the first one a `HashSet` yields)
 * is the parameter `pick`.
 */
module StrainEmission {
  import opened Wrappers
  import opened Chunking
  import opened Text

  /** One contig's calls: position -> variants. */
  type Calls = map<int, set<string>>

  /** One strain's calls: contig id -> position -> variants. */
  type Genotype = map<int, Calls>

  /** The width of an output line. */
  const LineWidth: nat := 60

  /**
   * `tid_genotype.extend(shared)`: the shared calls are added, replacing the
   * strain's own calls at the same positions.
   */
  function Merge(own: Calls, shared: Calls): (r: Calls)
    ensures r.Keys == own.Keys + shared.Keys
    ensures forall p :: p in shared ==> r[p] == shared[p]
    ensures forall p :: p in own && p !in shared ==> r[p] == own[p]
  {
    own + shared
  }

  /** Extending a second time with the same shared calls changes nothing. */
  lemma MergeIdempotent(own: Calls, shared: Calls)
    ensures Merge(Merge(own, shared), shared) == Merge(own, shared)
  {
  }

  /** The shared calls for a contig: those of bucket 0, if it has any for that contig. */
  function SharedCalls(sharedAll: map<int, Genotype>, tid: int): Calls
  {
    if 0 in sharedAll && tid in sharedAll[0] then sharedAll[0][tid] else map[]
  }

  /** The text a call emits: the first character of an 'N' call, an insertion without its reference base, or the call itself. */
  function CallText(v: string): (t: string)
    ensures 'N' in v ==> t == [v[0]]
    ensures 'N' !in v ==> t == (if |v| > 1 then v[1..] else v)
  {
    if 'N' in v then [v[0]] else if |v| > 1 then v[1..] else v
  }

  /**
   * A call's text is never longer than the call and never empty for a
   * non-empty call: an 'N' call keeps a one-character prefix of itself, any
   * other call a suffix, one character shorter when the call is longer than
   * one (the insertion's reference base is dropped).
   */
  lemma CallTextShape(v: string)
    ensures var t := CallText(v);
            && |t| <= |v| && (|v| > 0 ==> |t| >= 1)
            && ('N' in v ==> |t| == 1 && t <= v)
            && ('N' !in v ==> t == v[|v| - |t|..] && (|v| > 1 ==> |t| == |v| - 1))
  {
  }

  /** The reference positions a call consumes: its own and, for an 'N' call, the |v| - 1 after it. */
  function Consumed(v: string): (n: nat)
    ensures n >= 1
  {
    if 'N' in v then |v| else 1
  }

  /**
   * The strain sequence from reference position p on, with the number of
   * calls applied. A position without a call copies the reference base; an
   * empty call set emits nothing; otherwise the picked variant's text is
   * emitted and the walk resumes after the positions it consumes.
   */
  function Strain(reference: seq<char>, calls: Calls, pick: set<string> -> string, p: nat): (r: (string, nat))
    ensures p >= |reference| ==> r == ("", 0)
    ensures p < |reference| ==> r.1 <= |reference| - p
    decreases |reference| - p
  {
    if p >= |reference| then ("", 0)
    else if p !in calls then
      var rest := Strain(reference, calls, pick, p + 1);
      ([reference[p]] + rest.0, rest.1)
    else if calls[p] == {} then Strain(reference, calls, pick, p + 1)
    else
      var v := pick(calls[p]);
      var rest := Strain(reference, calls, pick, p + Consumed(v));
      (CallText(v) + rest.0, rest.1 + 1)
  }

  /** A contig with no calls from p on is copied unchanged, with no variation. */
  lemma {:induction false} NoCallsUnchanged(reference: seq<char>, calls: Calls, pick: set<string> -> string, p: nat)
    requires p <= |reference|
    requires forall q :: p <= q < |reference| ==> q !in calls
    ensures Strain(reference, calls, pick, p) == (reference[p..], 0)
    decreases |reference| - p
  {
    if p < |reference| {
      NoCallsUnchanged(reference, calls, pick, p + 1);
      assert reference[p..] == [reference[p]] + reference[p + 1..];
    }
  }

  /** The positions from p on that carry a call. */
  function CalledFrom(reference: seq<char>, calls: Calls, p: nat): set<int>
  {
    set q | p <= q < |reference| && q in calls
  }

  /**
   * With substitutions only, the strain is the reference with each called
   * base replaced by the picked variant, and every call is counted.
   */
  lemma {:induction false} SnpOnlySubstitutes(reference: seq<char>, calls: Calls, pick: set<string> -> string, p: nat)
    requires p <= |reference|
    requires forall q :: p <= q < |reference| && q in calls ==>
               calls[q] != {} && |pick(calls[q])| == 1 && pick(calls[q])[0] != 'N'
    ensures |Strain(reference, calls, pick, p).0| == |reference| - p
    ensures forall i :: p <= i < |reference| ==>
              Strain(reference, calls, pick, p).0[i - p] == (if i in calls then pick(calls[i])[0] else reference[i])
    ensures Strain(reference, calls, pick, p).1 == |CalledFrom(reference, calls, p)|
    decreases |reference| - p
  {
    if p < |reference| {
      SnpOnlySubstitutes(reference, calls, pick, p + 1);
      SnpStep(reference, calls, pick, p);
      CalledFromStep(reference, calls, p);
      var s, t := Strain(reference, calls, pick, p).0, Strain(reference, calls, pick, p + 1).0;
      forall i | p < i < |reference| ensures s[i - p] == (if i in calls then pick(calls[i])[0] else reference[i]) {
        assert s[i - p] == t[i - (p + 1)];
      }
    } else {
      assert CalledFrom(reference, calls, p) == {};
    }
  }

  /** At a substitution the strain emits the picked base and counts one call; elsewhere it copies the reference base. */
  lemma SnpStep(reference: seq<char>, calls: Calls, pick: set<string> -> string, p: nat)
    requires p < |reference|
    requires p in calls ==> calls[p] != {} && |pick(calls[p])| == 1 && pick(calls[p])[0] != 'N'
    ensures Strain(reference, calls, pick, p).0
            == [if p in calls then pick(calls[p])[0] else reference[p]] + Strain(reference, calls, pick, p + 1).0
    ensures Strain(reference, calls, pick, p).1 == Strain(reference, calls, pick, p + 1).1 + (if p in calls then 1 else 0)
  {
    if p in calls {
      SubstitutionStep(reference, calls, pick, p);
    }
  }

  lemma SubstitutionStep(reference: seq<char>, calls: Calls, pick: set<string> -> string, p: nat)
    requires p < |reference| && p in calls
    requires calls[p] != {} && |pick(calls[p])| == 1 && pick(calls[p])[0] != 'N'
    ensures Strain(reference, calls, pick, p)
            == ([pick(calls[p])[0]] + Strain(reference, calls, pick, p + 1).0, Strain(reference, calls, pick, p + 1).1 + 1)
  {
    var v := pick(calls[p]);
    assert v == [v[0]];
    assert Consumed(v) == 1 && CallText(v) == v;
  }

  lemma CalledFromStep(reference: seq<char>, calls: Calls, p: nat)
    requires p < |reference|
    ensures p !in CalledFrom(reference, calls, p + 1)
    ensures CalledFrom(reference, calls, p) == CalledFrom(reference, calls, p + 1) + (if p in calls then {p} else {})
  {
  }

  /** Two call maps that agree at every position from p on give the same strain from p on. */
  lemma {:induction false} StrainLocal(reference: seq<char>, c1: Calls, c2: Calls, pick: set<string> -> string, p: nat)
    requires forall q :: q >= p ==> (q in c1 <==> q in c2)
    requires forall q :: q >= p && q in c1 ==> c1[q] == c2[q]
    ensures Strain(reference, c1, pick, p) == Strain(reference, c2, pick, p)
    decreases |reference| - p
  {
    if p < |reference| {
      StrainLocal(reference, c1, c2, pick, p + 1);
      if p in c1 && c1[p] != {} {
        StrainLocal(reference, c1, c2, pick, p + Consumed(pick(c1[p])));
      }
    }
  }

  /**
   * An applied 'N' call of length n hides the n - 1 positions after it: any
   * calls there can be changed or removed without changing the strain.
   */
  lemma SkippedWindowIgnored(reference: seq<char>, calls: Calls, other: Calls, pick: set<string> -> string, p: nat)
    requires p < |reference| && p in calls && calls[p] != {} && 'N' in pick(calls[p])
    requires forall q :: !(p < q < p + |pick(calls[p])|) ==> (q in calls <==> q in other)
    requires forall q :: !(p < q < p + |pick(calls[p])|) && q in calls ==> calls[q] == other[q]
    ensures Strain(reference, other, pick, p) == Strain(reference, calls, pick, p)
  {
    var v := pick(calls[p]);
    assert p in other && other[p] == calls[p];
    assert Consumed(v) == |v|;
    StrainLocal(reference, calls, other, pick, p + |v|);
    var rest := Strain(reference, calls, pick, p + |v|);
    assert Strain(reference, calls, pick, p) == (CallText(v) + rest.0, rest.1 + 1);
    assert Strain(reference, other, pick, p) == (CallText(v) + rest.0, rest.1 + 1);
  }

  // ---------------------------------------------------------------------------
  // The walk over one contig.

  /**
   * The per-position loop for one contig. Without calls for the contig the
   * reference is emitted unchanged; otherwise the shared calls are merged in
   * (the genotype keeps the merge) and the skip counters implement the 'N'
   * rule.
   */
  method EmitContig(reference: seq<char>, genotype: Genotype, sharedAll: map<int, Genotype>, tid: int,
                    pick: set<string> -> string)
    returns (contig: string, variations: nat, updated: Genotype)
    ensures tid !in genotype ==> contig == reference && variations == 0
    ensures tid in genotype ==>
              (contig, variations) == Strain(reference, Merge(genotype[tid], SharedCalls(sharedAll, tid)), pick, 0)
    ensures updated == if tid in genotype && |reference| > 0
                       then genotype[tid := Merge(genotype[tid], SharedCalls(sharedAll, tid))]
                       else genotype
  {
    ghost var merged := if tid in genotype then Merge(genotype[tid], SharedCalls(sharedAll, tid)) else map[];
    ghost var whole := Strain(reference, merged, pick, 0);
    contig := "";
    variations := 0;
    updated := genotype;
    var skipN: nat := 0;
    var skipCnt: nat := 0;
    ghost var resume: nat := 0;
    JoinStart(whole);
    for pos := 0 to |reference|
      invariant skipCnt <= skipN
      invariant pos == 0 ==> skipN == 0
      invariant tid !in genotype ==> updated == genotype && variations == 0 && skipN == 0
      invariant tid !in genotype ==> contig == (if pos == 0 then "" else reference)
      invariant tid in genotype ==> updated == if pos == 0 then genotype else genotype[tid := merged]
      invariant resume == pos + (skipN - skipCnt)
      invariant tid in genotype ==> whole == Join(contig, variations, Strain(reference, merged, pick, resume))
    {
      if skipCnt < skipN {
        skipCnt := skipCnt + 1;
      } else {
        skipN, skipCnt := 0, 0;
        if tid in updated {
          var consumed;
          updated, contig, variations, consumed := Visit(reference, genotype, updated, sharedAll, tid, pick, pos, contig, variations, merged, whole);
          skipN := consumed - 1;
          resume := pos + consumed;
        } else {
          contig := reference;
          resume := pos + 1;
        }
      }
    }
    if tid in genotype {
      JoinEmpty(contig, variations);
    }
  }

  /**
   * A position the walk does not skip, for a contig with calls: merge the
   * shared calls into the genotype and apply the call at the position.
   */
  method Visit(reference: seq<char>, ghost genotype: Genotype, updated: Genotype, sharedAll: map<int, Genotype>,
               tid: int, pick: set<string> -> string, pos: nat, contig: string, variations: nat,
               ghost merged: Calls, ghost whole: (string, nat))
    returns (updated': Genotype, contig': string, variations': nat, consumed: nat)
    requires pos < |reference|
    requires tid in genotype && merged == Merge(genotype[tid], SharedCalls(sharedAll, tid))
    requires updated == genotype || updated == genotype[tid := merged]
    requires whole == Join(contig, variations, Strain(reference, merged, pick, pos))
    ensures consumed >= 1
    ensures updated' == genotype[tid := merged]
    ensures whole == Join(contig', variations', Strain(reference, merged, pick, pos + consumed))
  {
    updated' := ExtendShared(updated, sharedAll, tid);
    ExtendStable(genotype, tid, SharedCalls(sharedAll, tid));
    var text, applied;
    text, applied, consumed := ApplyCall(reference, updated'[tid], pick, pos);
    JoinStep(contig, variations, text, applied, Strain(reference, merged, pick, pos + consumed));
    contig' := contig + text;
    variations' := variations + applied;
  }

  /** `tid_genotype.extend(prediction_variants_all[&0][&tid])`, when bucket 0 has calls for the contig. */
  method ExtendShared(genotype: Genotype, sharedAll: map<int, Genotype>, tid: int) returns (r: Genotype)
    requires tid in genotype
    ensures r == genotype[tid := Merge(genotype[tid], SharedCalls(sharedAll, tid))]
  {
    r := genotype;
    if 0 in sharedAll && tid in sharedAll[0] {
      r := r[tid := r[tid] + sharedAll[0][tid]];
    } else {
      assert Merge(genotype[tid], map[]) == genotype[tid];
    }
  }

  /** Once merged, a contig's calls stay the same under every further extension. */
  lemma ExtendStable(genotype: Genotype, tid: int, shared: Calls)
    requires tid in genotype
    ensures var m := Merge(genotype[tid], shared);
            genotype[tid := m][tid := Merge(m, shared)] == genotype[tid := m]
  {
    MergeIdempotent(genotype[tid], shared);
  }

  /** The output so far followed by the strain from the resume position on. */
  function Join(contig: string, variations: nat, rest: (string, nat)): (string, nat)
  {
    (contig + rest.0, variations + rest.1)
  }

  lemma JoinStep(contig: string, variations: nat, text: string, applied: nat, rest: (string, nat))
    ensures Join(contig + text, variations + applied, rest) == Join(contig, variations, (text + rest.0, applied + rest.1))
  {
    assert (contig + text) + rest.0 == contig + (text + rest.0);
  }

  lemma JoinStart(whole: (string, nat))
    ensures Join("", 0, whole) == whole
  {
    assert "" + whole.0 == whole.0;
  }

  lemma JoinEmpty(contig: string, variations: nat)
    ensures Join(contig, variations, ("", 0)) == (contig, variations)
  {
    assert contig + "" == contig;
  }

  /**
   * One position the walk does not skip: the text it emits, whether a call
   * was applied, and how many positions it consumes.
   */
  method ApplyCall(reference: seq<char>, calls: Calls, pick: set<string> -> string, pos: nat)
    returns (text: string, applied: nat, consumed: nat)
    requires pos < |reference|
    ensures consumed >= 1
    ensures var rest := Strain(reference, calls, pick, pos + consumed);
            Strain(reference, calls, pick, pos) == (text + rest.0, applied + rest.1)
  {
    if pos in calls {
      var hash := calls[pos];
      var maxVar := "";
      applied := 0;
      if hash != {} {
        maxVar := pick(hash);
        applied := 1;
      }
      consumed := 1;
      if 'N' in maxVar {
        consumed := |maxVar|;
        text := [maxVar[0]];
      } else if |maxVar| > 1 {
        text := maxVar[1..];
      } else {
        text := maxVar;
      }
      if hash == {} {
        assert text == [];
        assert text + Strain(reference, calls, pick, pos + 1).0 == Strain(reference, calls, pick, pos + 1).0;
      } else {
        assert text == CallText(maxVar) && consumed == Consumed(maxVar);
      }
    } else {
      text, applied, consumed := [reference[pos]], 0, 1;
    }
  }

  // ---------------------------------------------------------------------------
  // Output records.

  /** One contig of a strain file: the header line and the sequence lines. */
  datatype ContigRecord = ContigRecord(header: string, lines: seq<string>)

  datatype EmitError = MissingName(tid: int)   // `target_names[tid]` panics

  /** `>{name}_strain_{index}\t#variants_{variations}` */
  function Header(name: string, strainIndex: int, variations: nat): string
  {
    ">" + name + "_strain_" + SignedText(strainIndex) + "\t#variants_" + DecimalText(variations)
  }

  /** The three parts of a concatenation slice back out. */
  lemma ConcatParts(a: string, b: string, c: string)
    ensures (a + b + c)[..|a|] == a
    ensures (a + b + c)[|a|..|a| + |b|] == b
    ensures (a + b + c)[|a| + |b|..] == c
  {
  }

  /**
   * A header names the contig and the strain, and its last field reads back
   * as the number of applied calls.
   */
  lemma HeaderFields(name: string, strainIndex: int, variations: nat)
    ensures var h := Header(name, strainIndex, variations);
            var k := |h| - |DecimalText(variations)|;
            && k >= |name| + 9 + 11
            && h[..|name| + 9] == ">" + name + "_strain_"
            && h[|name| + 9..k - 11] == SignedText(strainIndex)
            && h[k - 11..k] == "\t#variants_"
            && DecimalValue(h[k..]) == variations
  {
    var prefix := ">" + name + "_strain_";
    var index := SignedText(strainIndex);
    var tail := "\t#variants_";
    var digits := DecimalText(variations);
    var head := prefix + index + tail;
    assert |prefix| == |name| + 9 && |tail| == 11;
    assert Header(name, strainIndex, variations) == head + digits;
    ConcatParts(prefix, index, tail);
    ConcatParts(head, digits, "");
    assert (head + digits)[..|head|] == head;
    assert (head + digits)[|head|..] == digits;
    assert (head + digits)[..|prefix|] == head[..|prefix|];
    assert (head + digits)[|prefix|..|prefix| + |index|] == head[|prefix|..|prefix| + |index|];
    assert (head + digits)[|head| - 11..|head|] == head[|prefix| + |index|..];
    DecimalRoundTrip(variations);
  }

  /** The record written for a contig, built from the strain's original calls. */
  function RecordOf(reference: seq<char>, genotype: Genotype, sharedAll: map<int, Genotype>, tid: int,
                    name: string, strainIndex: int, pick: set<string> -> string): (rec: ContigRecord)
    ensures tid !in genotype ==> Flatten(rec.lines) == reference
    ensures tid in genotype ==>
              Flatten(rec.lines) == Strain(reference, Merge(genotype[tid], SharedCalls(sharedAll, tid)), pick, 0).0
    ensures forall i :: 0 <= i < |rec.lines| ==> 0 < |rec.lines[i]| <= LineWidth
    ensures rec.header == Header(name, strainIndex,
                                 if tid in genotype then Strain(reference, Merge(genotype[tid], SharedCalls(sharedAll, tid)), pick, 0).1
                                 else 0)
  {
    var s := if tid in genotype then Strain(reference, Merge(genotype[tid], SharedCalls(sharedAll, tid)), pick, 0)
             else (reference, 0);
    ChunksFlatten(s.0, LineWidth);
    ContigRecord(Header(name, strainIndex, s.1), Chunks(s.0, LineWidth))
  }

  /** Two genotypes that give every contig the same merged calls. */
  predicate SameMerged(current: Genotype, genotype: Genotype, sharedAll: map<int, Genotype>)
  {
    && current.Keys == genotype.Keys
    && forall t :: t in genotype ==>
         Merge(current[t], SharedCalls(sharedAll, t)) == Merge(genotype[t], SharedCalls(sharedAll, t))
  }

  /** The record built from a walk over the updated calls is the one built from the original calls. */
  lemma CurrentRecord(reference: seq<char>, current: Genotype, genotype: Genotype, sharedAll: map<int, Genotype>,
                      tid: int, name: string, strainIndex: int, pick: set<string> -> string,
                      contig: string, variations: nat)
    requires SameMerged(current, genotype, sharedAll)
    requires tid !in current ==> contig == reference && variations == 0
    requires tid in current ==>
               (contig, variations) == Strain(reference, Merge(current[tid], SharedCalls(sharedAll, tid)), pick, 0)
    ensures ContigRecord(Header(name, strainIndex, variations), Chunks(contig, LineWidth))
            == RecordOf(reference, genotype, sharedAll, tid, name, strainIndex, pick)
  {
  }

  /** Writing the merged calls back keeps the merged view of every contig. */
  lemma SameMergedStep(current: Genotype, genotype: Genotype, sharedAll: map<int, Genotype>, tid: int, next: Genotype)
    requires SameMerged(current, genotype, sharedAll)
    requires next == current || (tid in current && next == current[tid := Merge(current[tid], SharedCalls(sharedAll, tid))])
    ensures SameMerged(next, genotype, sharedAll)
  {
    if next != current {
      MergeIdempotent(current[tid], SharedCalls(sharedAll, tid));
    }
  }

  /** One contig of the loop: walk it over the current calls, then look up its name. */
  method EmitOne(strainIndex: int, current: Genotype, ghost genotype: Genotype, sharedAll: map<int, Genotype>,
                 reference: seq<char>, tid: int, names: map<int, string>, pick: set<string> -> string)
    returns (r: Result<(ContigRecord, Genotype), EmitError>)
    requires SameMerged(current, genotype, sharedAll)
    ensures r.Ok? <==> tid in names
    ensures r.Err? ==> r.error == MissingName(tid)
    ensures r.Ok? ==> r.value.0 == RecordOf(reference, genotype, sharedAll, tid, names[tid], strainIndex, pick)
    ensures r.Ok? ==> SameMerged(r.value.1, genotype, sharedAll)
  {
    var contig, variations, next := EmitContig(reference, current, sharedAll, tid, pick);
    if tid !in names {
      return Err(MissingName(tid));
    }
    CurrentRecord(reference, current, genotype, sharedAll, tid, names[tid], strainIndex, pick, contig, variations);
    SameMergedStep(current, genotype, sharedAll, tid, next);
    return Ok((ContigRecord(Header(names[tid], strainIndex, variations), Chunks(contig, LineWidth)), next));
  }

  /** `t` occurs in the order. */
  predicate Listed(order: seq<int>, t: int)
  {
    t in order
  }

  /** `order` is an iteration order of the map's keys: it lists only keys, lists every key, and has one entry per key. */
  predicate EnumeratesKeys<V>(order: seq<int>, m: map<int, V>)
  {
    && (forall i :: 0 <= i < |order| ==> order[i] in m)
    && (forall t {:trigger Listed(order, t)} :: t in m ==> Listed(order, t))
    && |order| == |m|
  }

  /** The values a sequence lists. */
  function Elements(s: seq<int>): set<int>
  {
    set i | 0 <= i < |s| :: s[i]
  }

  /** A sequence lists at most as many values as it has entries, and exactly as many only without repeats. */
  lemma {:induction false} ElementsCount(s: seq<int>)
    ensures |Elements(s)| <= |s|
    ensures |Elements(s)| == |s| ==> forall i, j :: 0 <= i < j < |s| ==> s[i] != s[j]
  {
    if |s| > 0 {
      var n := |s| - 1;
      var init := s[..n];
      ElementsCount(init);
      assert Elements(s) == Elements(init) + {s[n]} by {
        forall x | x in Elements(s) ensures x in Elements(init) + {s[n]} {
          var i :| 0 <= i < |s| && s[i] == x;
          if i < n {
            assert init[i] == x;
          }
        }
        forall x | x in Elements(init) ensures x in Elements(s) {
          var i :| 0 <= i < |init| && init[i] == x;
          assert s[i] == x;
        }
      }
      if s[n] !in Elements(init) && |Elements(s)| == |s| {
        forall i, j | 0 <= i < j < |s| ensures s[i] != s[j] {
          assert s[i] == init[i];
          if j < n {
            assert s[j] == init[j];
          } else {
            assert s[i] in Elements(init);
          }
        }
      }
    } else {
      assert Elements(s) == {};
    }
  }

  /** Every key of the map occurs in an iteration order of its keys. */
  lemma EnumerationCovers<V>(order: seq<int>, m: map<int, V>)
    requires EnumeratesKeys(order, m)
    ensures forall t :: t in m ==> t in order
  {
    forall t | t in m ensures t in order {
      assert Listed(order, t);
    }
  }

  /** An iteration order never repeats a key: with one entry per key and every key listed, a repeat would leave a key out. */
  lemma EnumerationDistinct<V>(order: seq<int>, m: map<int, V>)
    requires EnumeratesKeys(order, m)
    ensures forall i, j :: 0 <= i < j < |order| ==> order[i] != order[j]
  {
    ElementsCount(order);
    assert Elements(order) == m.Keys by {
      forall t | t in m ensures t in Elements(order) {
        assert Listed(order, t);
        var i :| 0 <= i < |order| && order[i] == t;
      }
    }
  }

  /**
   * The contig loop of one strain, over the contigs in map order. It stops at
   * the first contig without a name.
   */
  method EmitStrain(strainIndex: int, genotype: Genotype, sharedAll: map<int, Genotype>,
                    contigs: map<int, seq<char>>, order: seq<int>, names: map<int, string>,
                    pick: set<string> -> string)
    returns (r: Result<(seq<ContigRecord>, Genotype), EmitError>)
    requires EnumeratesKeys(order, contigs)
    ensures r.Ok? <==> forall i :: 0 <= i < |order| ==> order[i] in names
    ensures r.Err? ==> r.error.MissingName? && r.error.tid !in names
    ensures r.Ok? ==> |r.value.0| == |order| == |contigs|
    ensures r.Ok? ==> forall i :: 0 <= i < |order| ==>
              r.value.0[i] == RecordOf(contigs[order[i]], genotype, sharedAll, order[i], names[order[i]], strainIndex, pick)
  {
    var records: seq<ContigRecord> := [];
    var current := genotype;
    for i := 0 to |order|
      invariant |records| == i
      invariant forall j :: 0 <= j < i ==> order[j] in names
      invariant forall j :: 0 <= j < i ==>
                  records[j] == RecordOf(contigs[order[j]], genotype, sharedAll, order[j], names[order[j]], strainIndex, pick)
      invariant SameMerged(current, genotype, sharedAll)
    {
      var one := EmitOne(strainIndex, current, genotype, sharedAll, contigs[order[i]], order[i], names, pick);
      if one.Err? {
        return Err(one.error);
      }
      records := records + [one.value.0];
      current := one.value.1;
    }
    return Ok((records, current));
  }

  // ---------------------------------------------------------------------------
  // All strains.

  /** The strain indices that get a file: every one except bucket 0, in map order. */
  function Written(order: seq<int>): (r: seq<int>)
    ensures forall k :: 0 <= k < |r| ==> r[k] != 0 && r[k] in order
    ensures forall i :: 0 <= i < |order| && order[i] != 0 ==> order[i] in r
  {
    if |order| == 0 then []
    else Written(order[..|order| - 1]) + (if order[|order| - 1] != 0 then [order[|order| - 1]] else [])
  }

  lemma WrittenStep(order: seq<int>, i: nat)
    requires i < |order|
    ensures Written(order[..i + 1]) == Written(order[..i]) + (if order[i] != 0 then [order[i]] else [])
  {
    assert order[..i + 1][..i] == order[..i];
  }

  /** Every contig has a name. */
  predicate AllNamed(contigOrder: seq<int>, names: map<int, string>)
  {
    forall i :: 0 <= i < |contigOrder| ==> contigOrder[i] in names
  }

  /** The records of one strain's file, one per contig in map order. */
  function StrainRecords(genotype: Genotype, strainIndex: int, sharedAll: map<int, Genotype>,
                         contigs: map<int, seq<char>>, contigOrder: seq<int>, names: map<int, string>,
                         pick: set<string> -> string): (recs: seq<ContigRecord>)
    requires forall i :: 0 <= i < |contigOrder| ==> contigOrder[i] in contigs
    requires AllNamed(contigOrder, names)
    ensures |recs| == |contigOrder|
  {
    seq(|contigOrder|, i requires 0 <= i < |contigOrder| =>
      RecordOf(contigs[contigOrder[i]], genotype, sharedAll, contigOrder[i], names[contigOrder[i]], strainIndex, pick))
  }

  /** A written file: a strain of the predictions with the records of its own calls. */
  predicate IsFile(file: (int, seq<ContigRecord>), predictions: map<int, Genotype>, sharedAll: map<int, Genotype>,
                   contigs: map<int, seq<char>>, contigOrder: seq<int>, names: map<int, string>,
                   pick: set<string> -> string)
    requires forall i :: 0 <= i < |contigOrder| ==> contigOrder[i] in contigs
  {
    && file.0 in predictions
    && AllNamed(contigOrder, names)
    && file.1 == StrainRecords(predictions[file.0], file.0, sharedAll, contigs, contigOrder, names, pick)
  }

  /** The files written for the strains `written`, in that order. */
  predicate FilesFor(files: seq<(int, seq<ContigRecord>)>, written: seq<int>, predictions: map<int, Genotype>,
                     sharedAll: map<int, Genotype>, contigs: map<int, seq<char>>, contigOrder: seq<int>,
                     names: map<int, string>, pick: set<string> -> string)
    requires forall i :: 0 <= i < |contigOrder| ==> contigOrder[i] in contigs
  {
    && |files| == |written|
    && forall k :: 0 <= k < |files| ==>
         files[k].0 == written[k] && IsFile(files[k], predictions, sharedAll, contigs, contigOrder, names, pick)
  }

  lemma FilesStep(files: seq<(int, seq<ContigRecord>)>, written: seq<int>, file: (int, seq<ContigRecord>),
                  predictions: map<int, Genotype>, sharedAll: map<int, Genotype>, contigs: map<int, seq<char>>,
                  contigOrder: seq<int>, names: map<int, string>, pick: set<string> -> string)
    requires forall i :: 0 <= i < |contigOrder| ==> contigOrder[i] in contigs
    requires FilesFor(files, written, predictions, sharedAll, contigs, contigOrder, names, pick)
    requires IsFile(file, predictions, sharedAll, contigs, contigOrder, names, pick)
    ensures FilesFor(files + [file], written + [file.0], predictions, sharedAll, contigs, contigOrder, names, pick)
  {
    var files', written' := files + [file], written + [file.0];
    forall k | 0 <= k < |files'|
      ensures files'[k].0 == written'[k] && IsFile(files'[k], predictions, sharedAll, contigs, contigOrder, names, pick)
    {
      if k < |files| {
        assert files'[k] == files[k];
      }
    }
  }

  /** Over an order listing every strain, every strain other than 0 is written. */
  lemma WrittenCovers<V>(order: seq<int>, predictions: map<int, V>)
    requires EnumeratesKeys(order, predictions)
    ensures forall s :: s in predictions && s != 0 ==> s in Written(order)
  {
    forall s | s in predictions && s != 0 ensures s in Written(order) {
      assert Listed(order, s);
      var i :| 0 <= i < |order| && order[i] == s;
    }
  }

  /** Records that match RecordOf contig by contig are the strain's records. */
  lemma RecordsOfStrain(recs: seq<ContigRecord>, genotype: Genotype, strainIndex: int, sharedAll: map<int, Genotype>,
                        contigs: map<int, seq<char>>, contigOrder: seq<int>, names: map<int, string>,
                        pick: set<string> -> string)
    requires forall i :: 0 <= i < |contigOrder| ==> contigOrder[i] in contigs
    requires AllNamed(contigOrder, names)
    requires |recs| == |contigOrder|
    requires forall i :: 0 <= i < |contigOrder| ==>
               recs[i] == RecordOf(contigs[contigOrder[i]], genotype, sharedAll, contigOrder[i], names[contigOrder[i]], strainIndex, pick)
    ensures recs == StrainRecords(genotype, strainIndex, sharedAll, contigs, contigOrder, names, pick)
  {
  }

  /** A strain other than 0 in the order is written. */
  lemma WrittenNonEmpty(order: seq<int>, i: nat)
    requires i < |order| && order[i] != 0
    ensures Written(order) != []
  {
    assert order[i] in Written(order);
  }

  /**
   * The strain loop: one file per strain other than bucket 0, each built from
   * that strain's own calls. The first strain that reaches a contig without
   * a name stops the output.
   */
  method EmitAll(predictions: map<int, Genotype>, order: seq<int>, sharedAll: map<int, Genotype>,
                 contigs: map<int, seq<char>>, contigOrder: seq<int>, names: map<int, string>,
                 pick: set<string> -> string)
    returns (r: Result<seq<(int, seq<ContigRecord>)>, EmitError>)
    requires EnumeratesKeys(order, predictions)
    requires EnumeratesKeys(contigOrder, contigs)
    ensures r.Ok? <==> Written(order) == [] || AllNamed(contigOrder, names)
    ensures r.Err? ==> r.error.MissingName? && r.error.tid !in names
    ensures r.Ok? ==> |r.value| == |Written(order)|
    ensures r.Ok? ==> forall s :: s in predictions && s != 0 ==> s in Written(order)
    ensures r.Ok? ==> forall k :: 0 <= k < |r.value| ==> |r.value[k].1| == |contigs|
    ensures r.Ok? ==> forall k :: 0 <= k < |r.value| ==>
              r.value[k].0 == Written(order)[k] && IsFile(r.value[k], predictions, sharedAll, contigs, contigOrder, names, pick)
  {
    var files: seq<(int, seq<ContigRecord>)> := [];
    for i := 0 to |order|
      invariant files != [] ==> AllNamed(contigOrder, names)
      invariant FilesFor(files, Written(order[..i]), predictions, sharedAll, contigs, contigOrder, names, pick)
    {
      WrittenStep(order, i);
      var strainIndex := order[i];
      if strainIndex != 0 {
        var one := EmitStrain(strainIndex, predictions[strainIndex], sharedAll, contigs, contigOrder, names, pick);
        if one.Err? {
          WrittenNonEmpty(order, i);
          return Err(one.error);
        }
        var file := (strainIndex, one.value.0);
        RecordsOfStrain(one.value.0, predictions[strainIndex], strainIndex, sharedAll, contigs, contigOrder, names, pick);
        assert IsFile(file, predictions, sharedAll, contigs, contigOrder, names, pick);
        FilesStep(files, Written(order[..i]), file, predictions, sharedAll, contigs, contigOrder, names, pick);
        files := files + [file];
      }
    }
    assert order[..|order|] == order;
    WrittenCovers(order, predictions);
    return Ok(files);
  }
}
