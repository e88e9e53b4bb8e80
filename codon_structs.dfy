/**
 * NCBI translation tables 1 and 11, the codon lookup maps built from them,
 * and cutting a nucleotide sequence into codons from a reading frame.
 * Nucleotide bytes are modelled as characters (all table bytes are ASCII).
 */
module CodonStructs {
  import opened Wrappers
  import opened Chunking
  import opened Text

  /** The five 64-character rows of an NCBI translation table. */
  datatype NCBITable = NCBITable(aas: string, starts: string, base1: string, base2: string, base3: string)

  datatype TableError = TableNotImplemented(tableId: nat)

  // The rows of tables 1 and 11, each written as four blocks of 16 codons.
  const Table1AAs    := "FFLLSSSSYY**CC*W" + "LLLLPPPPHHQQRRRR" + "IIIMTTTTNNKKSSRR" + "VVVVAAAADDEEGGGG"
  const Table1Starts := "---M------**--*-" + "---M------------" + "---M------------" + "----------------"
  const Table1Base1  := "TTTTTTTTTTTTTTTT" + "CCCCCCCCCCCCCCCC" + "AAAAAAAAAAAAAAAA" + "GGGGGGGGGGGGGGGG"
  const Table1Base2  := "TTTTCCCCAAAAGGGG" + "TTTTCCCCAAAAGGGG" + "TTTTCCCCAAAAGGGG" + "TTTTCCCCAAAAGGGG"
  const Table1Base3  := "TCAGTCAGTCAGTCAG" + "TCAGTCAGTCAGTCAG" + "TCAGTCAGTCAGTCAG" + "TCAGTCAGTCAGTCAG"

  const Table11AAs    := "FFLLSSSSYY**CC*W" + "LLLLPPPPHHQQRRRR" + "IIIMTTTTNNKKSSRR" + "VVVVAAAADDEEGGGG"
  const Table11Starts := "---M------**--*-" + "---M------------" + "MMMM------------" + "---M------------"
  const Table11Base1  := "TTTTTTTTTTTTTTTT" + "CCCCCCCCCCCCCCCC" + "AAAAAAAAAAAAAAAA" + "GGGGGGGGGGGGGGGG"
  const Table11Base2  := "TTTTCCCCAAAAGGGG" + "TTTTCCCCAAAAGGGG" + "TTTTCCCCAAAAGGGG" + "TTTTCCCCAAAAGGGG"
  const Table11Base3  := "TCAGTCAGTCAGTCAG" + "TCAGTCAGTCAGTCAG" + "TCAGTCAGTCAGTCAG" + "TCAGTCAGTCAGTCAG"

  /** `NCBITable::get_translation_table`: tables 1 and 11 are built in, any other id panics. */
  function GetTranslationTable(tableId: nat): (r: Result<NCBITable, TableError>)
    ensures r.Ok? <==> tableId == 1 || tableId == 11
    ensures r.Err? ==> r.error == TableNotImplemented(tableId)
    ensures r.Ok? ==> WellFormedTable(r.value)
  {
    if tableId == 1 then
      Ok(NCBITable(Table1AAs, Table1Starts, Table1Base1, Table1Base2, Table1Base3))
    else if tableId == 11 then
      Ok(NCBITable(Table11AAs, Table11Starts, Table11Base1, Table11Base2, Table11Base3))
    else
      Err(TableNotImplemented(tableId))
  }

  /** All five rows have 64 entries. */
  predicate WellFormedTable(t: NCBITable)
  {
    |t.aas| == 64 && |t.starts| == 64 && |t.base1| == 64 && |t.base2| == 64 && |t.base3| == 64
  }

  predicate IsBase(c: char)
  {
    c == 'T' || c == 'C' || c == 'A' || c == 'G'
  }

  /** Tables 1 and 11 share the amino-acid row and the three base rows and differ only in the start row. */
  lemma TablesDifferOnlyInStarts()
    ensures GetTranslationTable(1).Ok? && GetTranslationTable(11).Ok?
    ensures GetTranslationTable(1).value.aas == GetTranslationTable(11).value.aas
    ensures GetTranslationTable(1).value.base1 == GetTranslationTable(11).value.base1
    ensures GetTranslationTable(1).value.base2 == GetTranslationTable(11).value.base2
    ensures GetTranslationTable(1).value.base3 == GetTranslationTable(11).value.base3
    ensures GetTranslationTable(1).value.starts != GetTranslationTable(11).value.starts
  {
    assert Table1Starts[32] != Table11Starts[32];
  }

  // ---------------------------------------------------------------------------
  // Codon keys: the decimal value of the first base's byte, then the second and
  // third bases as characters ("65TG" for ATG).

  function CodonKey(b1: char, b2: char, b3: char): (key: string)
    ensures |key| >= 3 && key[|key| - 2] == b2 && key[|key| - 1] == b3
    ensures forall i :: 0 <= i < |key| - 2 ==> '0' <= key[i] <= '9'
  {
    DecimalText(b1 as int) + [b2, b3]
  }

  /** The key of a table codon is four characters long and determines the codon. */
  lemma CodonKeyShape(b1: char, b2: char, b3: char)
    requires IsBase(b1)
    ensures |CodonKey(b1, b2, b3)| == 4
    ensures CodonKey(b1, b2, b3)[2] == b2 && CodonKey(b1, b2, b3)[3] == b3
    ensures DecimalValue(CodonKey(b1, b2, b3)[..2]) == b1 as int
  {
    assert CodonKey(b1, b2, b3)[..2] == DecimalText(b1 as int);
    DecimalRoundTrip(b1 as int);
  }

  lemma CodonKeyExample()
    ensures CodonKey('A', 'T', 'G') == "65TG"
  {
    assert DecimalText(6) == "6";
  }

  /** The codon key of table entry `i`. */
  function KeyAt(t: NCBITable, i: nat): string
    requires WellFormedTable(t) && i < 64
  {
    CodonKey(t.base1[i], t.base2[i], t.base3[i])
  }

  function CodonKeys(t: NCBITable): (keys: seq<string>)
    requires WellFormedTable(t)
    ensures |keys| == 64
  {
    seq(64, i requires 0 <= i < 64 => KeyAt(t, i))
  }

  // ---------------------------------------------------------------------------
  // Grouping codon keys by a label row (amino acid or start marker).

  /** Label `c` maps to the keys of every entry labelled `c`. */
  ghost function Group(labels: string, keys: seq<string>): map<char, set<string>>
    requires |labels| == |keys|
  {
    map c | c in labels :: set i | 0 <= i < |labels| && labels[i] == c :: keys[i]
  }

  lemma {:induction false} GroupStep(labels: string, keys: seq<string>, i: nat)
    requires |labels| == |keys| && i < |labels|
    ensures var g := Group(labels[..i], keys[..i]);
            Group(labels[..i + 1], keys[..i + 1])
              == g[labels[i] := (if labels[i] in g then g[labels[i]] else {}) + {keys[i]}]
  {
    var g := Group(labels[..i], keys[..i]);
    var g' := Group(labels[..i + 1], keys[..i + 1]);
    var c := labels[i];
    var expected := g[c := (if c in g then g[c] else {}) + {keys[i]}];
    assert labels[..i + 1] == labels[..i] + [c];
    forall d | d in g'
      ensures d in expected && g'[d] == expected[d]
    {
      if d == c {
        assert g'[d] == (if c in g then g[c] else {}) + {keys[i]} by {
          forall k | k in g'[d] ensures k in (if c in g then g[c] else {}) + {keys[i]} {
            var j :| 0 <= j < i + 1 && labels[..i + 1][j] == d && keys[..i + 1][j] == k;
            if j < i { assert labels[..i][j] == d; }
          }
          if c in g {
            forall k | k in g[c] ensures k in g'[d] {
              var j :| 0 <= j < i && labels[..i][j] == c && keys[..i][j] == k;
              assert labels[..i + 1][j] == c && keys[..i + 1][j] == k;
            }
          }
          assert labels[..i + 1][i] == c && keys[..i + 1][i] == keys[i];
        }
      } else {
        var j :| 0 <= j < i + 1 && labels[..i + 1][j] == d;
        assert labels[..i][j] == d;
      }
    }
    forall d | d in expected ensures d in g' {
      if d != c {
        var j :| 0 <= j < i && labels[..i][j] == d;
        assert labels[..i + 1][j] == d;
      } else {
        assert labels[..i + 1][i] == c;
      }
    }
  }

  /**
   * With distinct keys, every key lies in exactly one group: the one named by
   * its own label. So the groups are pairwise disjoint and cover every key.
   */
  lemma GroupPartition(labels: string, keys: seq<string>)
    requires |labels| == |keys|
    requires forall i, j :: 0 <= i < j < |keys| ==> keys[i] != keys[j]
    ensures forall i :: 0 <= i < |keys| ==> labels[i] in Group(labels, keys) && keys[i] in Group(labels, keys)[labels[i]]
    ensures forall c, i :: c in Group(labels, keys) && 0 <= i < |keys| && keys[i] in Group(labels, keys)[c] ==> c == labels[i]
    ensures forall c, k :: c in Group(labels, keys) && k in Group(labels, keys)[c] ==> k in keys
  {
    var g := Group(labels, keys);
    forall c, i | c in g && 0 <= i < |keys| && keys[i] in g[c]
      ensures c == labels[i]
    {
      var j :| 0 <= j < |labels| && labels[j] == c && keys[j] == keys[i];
      assert i == j;
    }
  }

  // ---------------------------------------------------------------------------
  // Facts about the two tables' rows, established position by position.

  function BaseIndex(c: char): nat
  {
    if c == 'T' then 0 else if c == 'C' then 1 else if c == 'A' then 2 else 3
  }

  lemma Base1Layout()
    ensures forall i :: 0 <= i < 64 ==> BaseIndex(Table1Base1[i]) == i / 16 && IsBase(Table1Base1[i])
  {
    Base1Half0();
    Base1Half1();
  }

  lemma Base1Half0()
    ensures forall i :: 0 <= i < 32 ==> BaseIndex(Table1Base1[i]) == i / 16 && IsBase(Table1Base1[i])
  {
  }

  lemma Base1Half1()
    ensures forall i :: 32 <= i < 64 ==> BaseIndex(Table1Base1[i]) == i / 16 && IsBase(Table1Base1[i])
  {
  }

  lemma Base2Quarter0()
    ensures forall i :: 0 <= i < 16 ==> BaseIndex(Table1Base2[i]) == i / 4 % 4
  {
  }

  lemma Base2Quarter1()
    ensures forall i :: 16 <= i < 32 ==> BaseIndex(Table1Base2[i]) == i / 4 % 4
  {
  }

  lemma Base2Quarter2()
    ensures forall i :: 32 <= i < 48 ==> BaseIndex(Table1Base2[i]) == i / 4 % 4
  {
  }

  lemma Base2Quarter3()
    ensures forall i :: 48 <= i < 64 ==> BaseIndex(Table1Base2[i]) == i / 4 % 4
  {
  }

  lemma Base3Quarter0()
    ensures forall i :: 0 <= i < 16 ==> BaseIndex(Table1Base3[i]) == i % 4
  {
  }

  lemma Base3Quarter1()
    ensures forall i :: 16 <= i < 32 ==> BaseIndex(Table1Base3[i]) == i % 4
  {
  }

  lemma Base3Quarter2()
    ensures forall i :: 32 <= i < 48 ==> BaseIndex(Table1Base3[i]) == i % 4
  {
  }

  lemma Base3Quarter3()
    ensures forall i :: 48 <= i < 64 ==> BaseIndex(Table1Base3[i]) == i % 4
  {
  }

  lemma Base2Layout()
    ensures forall i :: 0 <= i < 64 ==> BaseIndex(Table1Base2[i]) == i / 4 % 4
  {
    Base2Quarter0();
    Base2Quarter1();
    Base2Quarter2();
    Base2Quarter3();
  }

  lemma Base3Layout()
    ensures forall i :: 0 <= i < 64 ==> BaseIndex(Table1Base3[i]) == i % 4
  {
    Base3Quarter0();
    Base3Quarter1();
    Base3Quarter2();
    Base3Quarter3();
  }

  lemma BaseDigits(i: int)
    requires 0 <= i < 64
    ensures i == 16 * (i / 16) + 4 * (i / 4 % 4) + i % 4
  {
    assert i == 4 * (i / 4) + i % 4;
    assert i / 4 == 4 * (i / 4 / 4) + i / 4 % 4;
    assert i / 4 / 4 == i / 16;
  }

  /** Tables 1 and 11 use the same three base rows. */
  lemma TableBases(t: NCBITable)
    requires GetTranslationTable(1) == Ok(t) || GetTranslationTable(11) == Ok(t)
    ensures t.base1 == Table1Base1 && t.base2 == Table1Base2 && t.base3 == Table1Base3
  {
  }

  /** Two table positions with the same three bases are the same position. */
  lemma BasesDetermineIndex(i: int, j: int)
    requires 0 <= i < 64 && 0 <= j < 64
    requires Table1Base1[i] == Table1Base1[j] && Table1Base2[i] == Table1Base2[j] && Table1Base3[i] == Table1Base3[j]
    ensures i == j
  {
    Base1Layout();
    Base2Layout();
    Base3Layout();
    BaseDigits(i);
    BaseDigits(j);
  }

  /** Equal codon keys come from equal codons. */
  lemma CodonKeyInjective(b1: char, b2: char, b3: char, c1: char, c2: char, c3: char)
    requires IsBase(b1) && IsBase(c1)
    requires CodonKey(b1, b2, b3) == CodonKey(c1, c2, c3)
    ensures b1 == c1 && b2 == c2 && b3 == c3
  {
    CodonKeyShape(b1, b2, b3);
    CodonKeyShape(c1, c2, c3);
  }

  /** The 64 codon keys of tables 1 and 11 are pairwise distinct. */
  lemma CodonKeysDistinct(t: NCBITable)
    requires GetTranslationTable(1) == Ok(t) || GetTranslationTable(11) == Ok(t)
    ensures WellFormedTable(t)
    ensures forall i, j :: 0 <= i < j < 64 ==> CodonKeys(t)[i] != CodonKeys(t)[j]
  {
    TableBases(t);
    Base1Layout();
    var keys := CodonKeys(t);
    forall i, j | 0 <= i < j < 64
      ensures keys[i] != keys[j]
    {
      if keys[i] == keys[j] {
        assert KeyAt(t, i) == KeyAt(t, j);
        CodonKeyInjective(t.base1[i], t.base2[i], t.base3[i], t.base1[j], t.base2[j], t.base3[j]);
        BasesDetermineIndex(i, j);
      }
    }
  }

  /** A duplicate-free sequence of length n has a set of n elements. */
  lemma {:induction false} DistinctCardinality<T>(s: seq<T>)
    requires forall i, j :: 0 <= i < j < |s| ==> s[i] != s[j]
    ensures |set x | x in s| == |s|
  {
    if s != [] {
      DistinctCardinality(s[1..]);
      var rest := set x | x in s[1..];
      assert (set x | x in s) == rest + {s[0]};
      assert s[0] !in rest;
    }
  }

  /**
   * After `get_codon_table` for table 1 or 11, both maps partition the 64
   * distinct codon keys: each key is in exactly one set, the one of its label.
   */
  lemma CodonMapsPartition(t: NCBITable)
    requires GetTranslationTable(1) == Ok(t) || GetTranslationTable(11) == Ok(t)
    ensures WellFormedTable(t)
    ensures |set k | k in CodonKeys(t)| == 64
    ensures forall i :: 0 <= i < 64 ==> t.aas[i] in Group(t.aas, CodonKeys(t)) && CodonKeys(t)[i] in Group(t.aas, CodonKeys(t))[t.aas[i]]
    ensures forall c, i :: c in Group(t.aas, CodonKeys(t)) && 0 <= i < 64 && CodonKeys(t)[i] in Group(t.aas, CodonKeys(t))[c] ==> c == t.aas[i]
    ensures forall i :: 0 <= i < 64 ==> t.starts[i] in Group(t.starts, CodonKeys(t)) && CodonKeys(t)[i] in Group(t.starts, CodonKeys(t))[t.starts[i]]
    ensures forall c, i :: c in Group(t.starts, CodonKeys(t)) && 0 <= i < 64 && CodonKeys(t)[i] in Group(t.starts, CodonKeys(t))[c] ==> c == t.starts[i]
    ensures forall c, k :: c in Group(t.aas, CodonKeys(t)) && k in Group(t.aas, CodonKeys(t))[c] ==> k in CodonKeys(t)
    ensures forall c, k :: c in Group(t.starts, CodonKeys(t)) && k in Group(t.starts, CodonKeys(t))[c] ==> k in CodonKeys(t)
  {
    CodonKeysDistinct(t);
    DistinctCardinality(CodonKeys(t));
    GroupPartition(t.aas, CodonKeys(t));
    GroupPartition(t.starts, CodonKeys(t));
  }

  /** The keys whose label is `c`, for a label row known position by position. */
  lemma GroupAt(labels: string, keys: seq<string>, c: char, idx: set<nat>)
    requires |labels| == |keys|
    requires forall i :: 0 <= i < |labels| ==> (labels[i] == c <==> i in idx)
    requires forall i :: i in idx ==> i < |labels|
    requires idx != {}
    ensures c in Group(labels, keys)
    ensures Group(labels, keys)[c] == set i | i in idx && i < |keys| :: keys[i]
  {
    var i :| i in idx;
  }

  /** The key texts of the first bases: T is byte 84, C 67, A 65 and G 71. */
  lemma FirstBaseTexts()
    ensures DecimalText('T' as int) == "84" && DecimalText('C' as int) == "67"
    ensures DecimalText('A' as int) == "65" && DecimalText('G' as int) == "71"
  {
    assert DecimalText(8) == "8" && DecimalText(6) == "6" && DecimalText(7) == "7";
  }

  lemma Table1StopPositions()
    ensures forall i :: 0 <= i < 64 ==> (Table1AAs[i] == '*' <==> i in {10, 11, 14})
  {
  }

  lemma Table1StartPositions()
    ensures forall i :: 0 <= i < 64 ==> (Table1Starts[i] == 'M' <==> i in {3, 19, 35})
  {
  }

  lemma Table11StartPositions()
    ensures forall i :: 0 <= i < 64 ==> (Table11Starts[i] == 'M' <==> i in {3, 19, 32, 33, 34, 35, 51})
  {
  }

  /** The key of entry i of table 1 or 11, from that entry's three bases. */
  lemma KeyAtIs(t: NCBITable, i: nat, b1: char, b2: char, b3: char, key: string)
    requires GetTranslationTable(1) == Ok(t) || GetTranslationTable(11) == Ok(t)
    requires i < 64
    requires Table1Base1[i] == b1 && Table1Base2[i] == b2 && Table1Base3[i] == b3
    requires CodonKey(b1, b2, b3) == key
    ensures WellFormedTable(t) && CodonKeys(t)[i] == key
  {
    TableBases(t);
  }

  /** The bases of the stop entries TAA, TAG, TGA and the start entries TTG, CTG, GTG. */
  lemma StopAndStartEntries()
    ensures Table1Base1[10] == 'T' && Table1Base2[10] == 'A' && Table1Base3[10] == 'A'
    ensures Table1Base1[11] == 'T' && Table1Base2[11] == 'A' && Table1Base3[11] == 'G'
    ensures Table1Base1[14] == 'T' && Table1Base2[14] == 'G' && Table1Base3[14] == 'A'
    ensures Table1Base1[3] == 'T' && Table1Base2[3] == 'T' && Table1Base3[3] == 'G'
    ensures Table1Base1[19] == 'C' && Table1Base2[19] == 'T' && Table1Base3[19] == 'G'
    ensures Table1Base1[51] == 'G' && Table1Base2[51] == 'T' && Table1Base3[51] == 'G'
  {
  }

  /** The bases of the entries ATT, ATC, ATA and ATG. */
  lemma AtEntries()
    ensures Table1Base1[32] == 'A' && Table1Base2[32] == 'T' && Table1Base3[32] == 'T'
    ensures Table1Base1[33] == 'A' && Table1Base2[33] == 'T' && Table1Base3[33] == 'C'
    ensures Table1Base1[34] == 'A' && Table1Base2[34] == 'T' && Table1Base3[34] == 'A'
    ensures Table1Base1[35] == 'A' && Table1Base2[35] == 'T' && Table1Base3[35] == 'G'
  {
  }

  /** The keys of the codons named by the stop and start rows. */
  lemma NamedKeys()
    ensures CodonKey('T', 'A', 'A') == "84AA" && CodonKey('T', 'A', 'G') == "84AG" && CodonKey('T', 'G', 'A') == "84GA"
    ensures CodonKey('T', 'T', 'G') == "84TG" && CodonKey('C', 'T', 'G') == "67TG" && CodonKey('G', 'T', 'G') == "71TG"
    ensures CodonKey('A', 'T', 'T') == "65TT" && CodonKey('A', 'T', 'C') == "65TC"
    ensures CodonKey('A', 'T', 'A') == "65TA" && CodonKey('A', 'T', 'G') == "65TG"
  {
    FirstBaseTexts();
  }

  lemma StopKeys(t: NCBITable)
    requires GetTranslationTable(1) == Ok(t)
    ensures CodonKeys(t)[10] == "84AA" && CodonKeys(t)[11] == "84AG" && CodonKeys(t)[14] == "84GA"
  {
    NamedKeys();
    StopAndStartEntries();
    KeyAtIs(t, 10, 'T', 'A', 'A', "84AA");
    KeyAtIs(t, 11, 'T', 'A', 'G', "84AG");
    KeyAtIs(t, 14, 'T', 'G', 'A', "84GA");
  }

  /** For table 1, `aminos['*']` holds the keys of TAA, TAG and TGA. */
  lemma Table1StopCodons(t: NCBITable)
    requires GetTranslationTable(1) == Ok(t)
    ensures '*' in Group(t.aas, CodonKeys(t))
    ensures Group(t.aas, CodonKeys(t))['*'] == {"84AA", "84AG", "84GA"}
  {
    Table1StopPositions();
    var keys := CodonKeys(t);
    GroupAt(t.aas, keys, '*', {10, 11, 14});
    StopKeys(t);
    assert (set i | i in {10, 11, 14} && i < |keys| :: keys[i]) == {keys[10], keys[11], keys[14]};
  }

  lemma Table1StartKeys(t: NCBITable)
    requires GetTranslationTable(1) == Ok(t)
    ensures CodonKeys(t)[3] == "84TG" && CodonKeys(t)[19] == "67TG" && CodonKeys(t)[35] == "65TG"
  {
    NamedKeys();
    StopAndStartEntries();
    AtEntries();
    KeyAtIs(t, 3, 'T', 'T', 'G', "84TG");
    KeyAtIs(t, 19, 'C', 'T', 'G', "67TG");
    KeyAtIs(t, 35, 'A', 'T', 'G', "65TG");
  }

  /** For table 1, `starts['M']` holds the keys of TTG, CTG and ATG. */
  lemma Table1StartCodons(t: NCBITable)
    requires GetTranslationTable(1) == Ok(t)
    ensures 'M' in Group(t.starts, CodonKeys(t))
    ensures Group(t.starts, CodonKeys(t))['M'] == {"84TG", "67TG", "65TG"}
  {
    Table1StartPositions();
    var keys := CodonKeys(t);
    GroupAt(t.starts, keys, 'M', {3, 19, 35});
    Table1StartKeys(t);
    assert (set i | i in {3, 19, 35} && i < |keys| :: keys[i]) == {keys[3], keys[19], keys[35]};
  }

  lemma Table11StartKeys(t: NCBITable)
    requires GetTranslationTable(11) == Ok(t)
    ensures CodonKeys(t)[3] == "84TG" && CodonKeys(t)[19] == "67TG" && CodonKeys(t)[51] == "71TG"
    ensures CodonKeys(t)[32] == "65TT" && CodonKeys(t)[33] == "65TC"
    ensures CodonKeys(t)[34] == "65TA" && CodonKeys(t)[35] == "65TG"
  {
    NamedKeys();
    StopAndStartEntries();
    KeyAtIs(t, 3, 'T', 'T', 'G', "84TG");
    KeyAtIs(t, 19, 'C', 'T', 'G', "67TG");
    KeyAtIs(t, 51, 'G', 'T', 'G', "71TG");
    Table11AtgKeys(t);
  }

  /** ATT, ATC, ATA and ATG: the four entries 32..35 of the start row. */
  lemma Table11AtgKeys(t: NCBITable)
    requires GetTranslationTable(11) == Ok(t)
    ensures CodonKeys(t)[32] == "65TT" && CodonKeys(t)[33] == "65TC"
    ensures CodonKeys(t)[34] == "65TA" && CodonKeys(t)[35] == "65TG"
  {
    NamedKeys();
    AtEntries();
    KeyAtIs(t, 32, 'A', 'T', 'T', "65TT");
    KeyAtIs(t, 33, 'A', 'T', 'C', "65TC");
    KeyAtIs(t, 34, 'A', 'T', 'A', "65TA");
    KeyAtIs(t, 35, 'A', 'T', 'G', "65TG");
  }

  /** The keys at table 11's seven start entries. */
  lemma Table11StartSet(keys: seq<string>)
    requires |keys| == 64
    ensures (set i | i in {3, 19, 32, 33, 34, 35, 51} && i < |keys| :: keys[i])
         == {keys[3], keys[19], keys[32], keys[33], keys[34], keys[35], keys[51]}
  {
  }

  /** Table 11's `starts['M']` adds ATT, ATC, ATA and GTG to those of table 1. */
  lemma Table11StartCodons(t: NCBITable)
    requires GetTranslationTable(11) == Ok(t)
    ensures 'M' in Group(t.starts, CodonKeys(t))
    ensures Group(t.starts, CodonKeys(t))['M'] == {"84TG", "67TG", "65TT", "65TC", "65TA", "65TG", "71TG"}
  {
    Table11StartPositions();
    var keys := CodonKeys(t);
    var idx: set<nat> := {3, 19, 32, 33, 34, 35, 51};
    GroupAt(t.starts, keys, 'M', idx);
    Table11StartKeys(t);
    Table11StartSet(keys);
  }

  // ---------------------------------------------------------------------------
  // The codon table object.

  class CodonTable {
    var aminos: map<char, set<string>>
    var starts: map<char, set<string>>

    /** `CodonTable::setup`: both maps empty. */
    constructor Setup()
      ensures aminos == map[] && starts == map[]
    {
      aminos := map[];
      starts := map[];
    }

    /**
     * `get_codon_table`: walks the five rows together, inserting each codon key
     * into the set of its amino acid and of its start marker, then replaces both
     * maps. An unknown table id panics before anything is assigned.
     */
    method GetCodonTable(tableId: nat) returns (ok: bool)
      modifies this
      ensures ok <==> tableId == 1 || tableId == 11
      ensures ok ==> var t := GetTranslationTable(tableId).value;
                     && aminos == Group(t.aas, CodonKeys(t))
                     && starts == Group(t.starts, CodonKeys(t))
      ensures !ok ==> aminos == old(aminos) && starts == old(starts)
    {
      var table := GetTranslationTable(tableId);
      if table.Err? {
        return false;
      }
      var t := table.value;
      ghost var keys := CodonKeys(t);
      var aminoHash: map<char, set<string>> := map[];
      var startHash: map<char, set<string>> := map[];
      var i := 0;
      while i < 64
        invariant 0 <= i <= 64
        invariant aminoHash == Group(t.aas[..i], keys[..i])
        invariant startHash == Group(t.starts[..i], keys[..i])
      {
        var codon := CodonKey(t.base1[i], t.base2[i], t.base3[i]);
        assert codon == keys[i];
        GroupStep(t.aas, keys, i);
        GroupStep(t.starts, keys, i);
        var aa := t.aas[i];
        var amino := if aa in aminoHash then aminoHash[aa] else {};
        aminoHash := aminoHash[aa := amino + {codon}];
        var s := t.starts[i];
        var start := if s in startHash then startHash[s] else {};
        startHash := startHash[s := start + {codon}];
        i := i + 1;
      }
      assert t.aas[..64] == t.aas && t.starts[..64] == t.starts && keys[..64] == keys;
      aminos := aminoHash;
      starts := startHash;
      ok := true;
    }
  }

  // ---------------------------------------------------------------------------
  // Codon chunking.

  datatype Strand = Forward | Reverse | Unknown

  datatype CodonError = FrameOutOfRange(frame: nat, length: nat)

  /**
   * `dna::revcomp` over an abstract base complement: the complement of the
   * input read backwards.
   */
  function Revcomp(s: string, complement: char -> char): (r: string)
    ensures |r| == |s|
    ensures forall i :: 0 <= i < |s| ==> r[i] == complement(s[|s| - 1 - i])
  {
    if s == [] then [] else Revcomp(s[1..], complement) + [complement(s[0])]
  }

  /**
   * `get_codons`: chunks of three from `frame` on, over the sequence itself on
   * the forward or unknown strand and over its reverse complement on the
   * reverse strand. A frame past the end panics on the slice.
   */
  function GetCodons(sequence: string, frame: nat, strand: Strand, complement: char -> char): (r: Result<seq<string>, CodonError>)
    ensures r.Ok? <==> frame <= |sequence|
  {
    var oriented := if strand == Reverse then Revcomp(sequence, complement) else sequence;
    if frame <= |oriented| then Ok(Chunks(oriented[frame..], 3))
    else Err(FrameOutOfRange(frame, |sequence|))
  }

  /**
   * On the forward or unknown strand the codons put back together are the
   * sequence from the frame on; all have length 3 except possibly a shorter,
   * non-empty last one; there are ceil((length - frame) / 3) of them.
   */
  lemma ForwardCodons(sequence: string, frame: nat, strand: Strand, complement: char -> char)
    requires strand != Reverse && frame <= |sequence|
    ensures var r := GetCodons(sequence, frame, strand, complement);
            && r.Ok?
            && Flatten(r.value) == sequence[frame..]
            && (forall i :: 0 <= i < |r.value| ==> 0 < |r.value[i]| <= 3)
            && (forall i :: 0 <= i < |r.value| - 1 ==> |r.value[i]| == 3)
            && |r.value| == (|sequence| - frame + 2) / 3
  {
    ChunksFlatten(sequence[frame..], 3);
    ChunksCount(sequence[frame..], 3);
  }

  /** On the reverse strand the codons are the forward codons of the reverse complement. */
  lemma ReverseCodons(sequence: string, frame: nat, complement: char -> char)
    requires frame <= |sequence|
    ensures GetCodons(sequence, frame, Reverse, complement)
         == GetCodons(Revcomp(sequence, complement), frame, Forward, complement)
  {
  }
}
