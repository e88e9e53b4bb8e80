/**
 * Routing collected variants to strains by their factorisation posteriors in
 * `generate_distances`. A variant whose posterior reaches 1/k (k the number of
 * distinct cluster ids) belongs to its cluster's strain only; any other
 * variant goes to the shared bucket 0 that every strain receives.
 */
module PosteriorRouting {
  import opened Wrappers
  import opened VariantFeatures

  /** One row of the prediction matrix: cluster id, posterior and feature weight. */
  datatype Prediction = Prediction(cluster: real, posterior: real, weight: real)

  /** Calls of one bucket: contig id -> position -> variants. */
  type TidCalls = map<int, map<int, set<string>>>

  datatype Routing = Routing(
    exclusive: map<int, TidCalls>,   // `prediction_variants`
    shared: map<int, TidCalls>,      // `prediction_variants_all`
    counts: map<int, nat>,           // `prediction_count`
    features: map<int, real>)        // `prediction_features`

  datatype RoutingError = PredictionRowMissing(row: nat)

  const I32Min: int := -0x8000_0000
  const I32Max: int := 0x7fff_ffff

  /** `as i32` on a float: rounds toward zero and saturates at the i32 bounds. */
  function CastI32(x: real): (r: int)
    ensures I32Min <= r <= I32Max
    ensures I32Min as real <= x < (I32Max + 1) as real && x >= 0.0 ==> r as real <= x < r as real + 1.0
    ensures (I32Min - 1) as real < x <= I32Max as real && x < 0.0 ==> r as real - 1.0 < x <= r as real
    ensures x >= (I32Max + 1) as real ==> r == I32Max
    ensures x <= (I32Min - 1) as real ==> r == I32Min
  {
    var t := if x >= 0.0 then x.Floor else -((-x).Floor);
    if t < I32Min then I32Min else if t > I32Max then I32Max else t
  }

  /** The distinct cluster ids over every prediction row. */
  ghost function ClusterIds(preds: seq<Prediction>): set<int>
  {
    set i | 0 <= i < |preds| :: CastI32(preds[i].cluster)
  }

  /** A row reaches the threshold 1/k. */
  predicate IsExclusive(p: Prediction, k: nat)
    requires k > 0
  {
    p.posterior >= 1.0 / (k as real)
  }

  /** The bucket key of a row: its cluster id + 1 when it reaches the threshold, 0 otherwise. */
  function Key(p: Prediction, k: nat): (b: int)
    requires k > 0
    ensures I32Min + 1 <= b <= I32Max + 1
    ensures !IsExclusive(p, k) ==> b == 0
  {
    if IsExclusive(p, k) then CastI32(p.cluster) + 1 else 0
  }

  ghost predicate Has(m: map<int, TidCalls>, b: int, tid: int, pos: int, v: string)
  {
    b in m && tid in m[b] && pos in m[b][tid] && v in m[b][tid][pos]
  }

  /** The nested `entry().or_insert()` chain followed by a set insert. */
  function Insert(m: map<int, TidCalls>, b: int, tid: int, pos: int, v: string): (r: map<int, TidCalls>)
    ensures r.Keys == m.Keys + {b}
  {
    var tm := if b in m then m[b] else map[];
    var pm := if tid in tm then tm[tid] else map[];
    var vs := if pos in pm then pm[pos] else {};
    m[b := tm[tid := pm[pos := vs + {v}]]]
  }

  /** An insert adds exactly the one call and keeps every other. */
  lemma InsertHas(m: map<int, TidCalls>, b: int, tid: int, pos: int, v: string)
    ensures forall b', t', p', v' :: Has(Insert(m, b, tid, pos, v), b', t', p', v') <==>
              Has(m, b', t', p', v') || (b' == b && t' == tid && p' == pos && v' == v)
  {
  }

  /** Row j sends its variant to bucket b of the exclusive (or the shared) map. */
  ghost predicate RoutedTo(variants: seq<VariantInfo>, preds: seq<Prediction>, k: nat, j: int,
                           exclusive: bool, b: int, tid: int, pos: int, v: string)
    requires k > 0 && |preds| >= |variants|
  {
    && 0 <= j < |variants|
    && IsExclusive(preds[j], k) == exclusive
    && Key(preds[j], k) == b
    && variants[j].tid == tid && variants[j].position == pos && variants[j].variant == v
  }

  /** The bucket keys of the first n rows. */
  ghost function Keys(preds: seq<Prediction>, k: nat, n: nat): (keys: seq<int>)
    requires k > 0 && n <= |preds|
    ensures |keys| == n
  {
    seq(n, j requires 0 <= j < n => Key(preds[j], k))
  }

  /** The summed weights of the rows among the first n whose key is b. */
  ghost function WeightSum(preds: seq<Prediction>, k: nat, b: int, n: nat): real
    requires k > 0 && n <= |preds|
  {
    if n == 0 then 0.0
    else WeightSum(preds, k, b, n - 1) + (if Key(preds[n - 1], k) == b then preds[n - 1].weight else 0.0)
  }

  /** Some row among the first n sends this call to bucket b on the given side. */
  ghost predicate RoutedBefore(variants: seq<VariantInfo>, preds: seq<Prediction>, k: nat, n: nat,
                               exclusive: bool, b: int, tid: int, pos: int, v: string)
    requires k > 0 && |preds| >= |variants|
  {
    exists j :: j < n && RoutedTo(variants, preds, k, j, exclusive, b, tid, pos, v)
  }

  /** The bucket map holds exactly the calls of the first n rows on its side of the threshold. */
  ghost predicate RoutedUpTo(m: map<int, TidCalls>, variants: seq<VariantInfo>, preds: seq<Prediction>,
                             k: nat, n: nat, exclusive: bool)
    requires k > 0 && |preds| >= |variants|
  {
    forall b, t, p, v :: Has(m, b, t, p, v) <==> RoutedBefore(variants, preds, k, n, exclusive, b, t, p, v)
  }

  /** Counts and features of the first n rows. */
  ghost predicate TalliedUpTo(counts: map<int, nat>, features: map<int, real>, preds: seq<Prediction>, k: nat, n: nat)
    requires k > 0 && n <= |preds|
  {
    && (forall b :: b in counts <==> b in multiset(Keys(preds, k, n)))
    && (forall b :: b in counts ==> counts[b] == multiset(Keys(preds, k, n))[b])
    && features.Keys == counts.Keys
    && (forall b :: b in features ==> features[b] == WeightSum(preds, k, b, n))
  }

  /** The distinct ids of the `unique_ranks` set. */
  method DistinctClusters(preds: seq<Prediction>) returns (k: nat)
    ensures k == |ClusterIds(preds)|
    ensures |preds| > 0 ==> k > 0
  {
    var ids: set<int> := {};
    var row := 0;
    while row < |preds|
      invariant 0 <= row <= |preds|
      invariant ids == set i | 0 <= i < row :: CastI32(preds[i].cluster)
    {
      ids := ids + {CastI32(preds[row].cluster)};
      row := row + 1;
    }
    if |preds| > 0 {
      assert CastI32(preds[0].cluster) in ids;
    }
    k := |ids|;
  }

  /** Everything the first n rows have contributed. */
  ghost predicate RoutedRows(st: Routing, variants: seq<VariantInfo>, preds: seq<Prediction>, k: nat, n: nat)
    requires k > 0 && n <= |variants| <= |preds|
  {
    && RoutedUpTo(st.exclusive, variants, preds, k, n, true)
    && RoutedUpTo(st.shared, variants, preds, k, n, false)
    && TalliedUpTo(st.counts, st.features, preds, k, n)
  }

  /** The effect of row i on the four maps. */
  function NextRouting(st: Routing, info: VariantInfo, p: Prediction, k: nat): Routing
    requires k > 0
  {
    var key := Key(p, k);
    Routing(RouteCall(st.exclusive, info, p, k, true), RouteCall(st.shared, info, p, k, false),
            Bump(st.counts, key), AddWeight(st.features, key, p.weight))
  }

  /** A row's call joins the map of its own side, under its key; the other side's map is left alone. */
  function RouteCall(m: map<int, TidCalls>, info: VariantInfo, p: Prediction, k: nat, exclusive: bool): map<int, TidCalls>
    requires k > 0
  {
    if IsExclusive(p, k) == exclusive then Insert(m, Key(p, k), info.tid, info.position, info.variant) else m
  }

  /** `*prediction_count.entry(key).or_insert(0) += 1` */
  function Bump(counts: map<int, nat>, key: int): map<int, nat>
  {
    counts[key := (if key in counts then counts[key] else 0) + 1]
  }

  /** `*prediction_features.entry(key).or_insert(0.) += weight` */
  function AddWeight(features: map<int, real>, key: int, w: real): map<int, real>
  {
    features[key := (if key in features then features[key] else 0.0) + w]
  }

  /** One side's map after the first n rows: each row's call joins it when the row is on that side. */
  function SideRows(variants: seq<VariantInfo>, preds: seq<Prediction>, k: nat, n: nat, exclusive: bool): map<int, TidCalls>
    requires k > 0 && n <= |variants| <= |preds|
  {
    if n == 0 then map[] else RouteCall(SideRows(variants, preds, k, n - 1, exclusive), variants[n - 1], preds[n - 1], k, exclusive)
  }

  /** The counts after the first n rows. */
  function CountRows(preds: seq<Prediction>, k: nat, n: nat): map<int, nat>
    requires k > 0 && n <= |preds|
  {
    if n == 0 then map[] else Bump(CountRows(preds, k, n - 1), Key(preds[n - 1], k))
  }

  /** The features after the first n rows. */
  function WeightRows(preds: seq<Prediction>, k: nat, n: nat): map<int, real>
    requires k > 0 && n <= |preds|
  {
    if n == 0 then map[] else AddWeight(WeightRows(preds, k, n - 1), Key(preds[n - 1], k), preds[n - 1].weight)
  }

  /** The four maps after the first n rows. */
  function RouteRows(variants: seq<VariantInfo>, preds: seq<Prediction>, k: nat, n: nat): Routing
    requires k > 0 && n <= |variants| <= |preds|
  {
    Routing(SideRows(variants, preds, k, n, true), SideRows(variants, preds, k, n, false), CountRows(preds, k, n), WeightRows(preds, k, n))
  }

  /** The rows are processed one at a time: row n moves the state after n rows to the state after n + 1. */
  lemma RouteRowsStep(variants: seq<VariantInfo>, preds: seq<Prediction>, k: nat, n: nat)
    requires k > 0 && n < |variants| <= |preds|
    ensures RouteRows(variants, preds, k, n + 1) == NextRouting(RouteRows(variants, preds, k, n), variants[n], preds[n], k)
  {
  }

  /** After any number of rows the maps hold exactly those rows' calls, counts and weights. */
  lemma RouteRowsCorrect(variants: seq<VariantInfo>, preds: seq<Prediction>, k: nat, n: nat)
    requires k > 0 && n <= |variants| <= |preds|
    ensures RoutedRows(RouteRows(variants, preds, k, n), variants, preds, k, n)
  {
    RouteRowsSide(variants, preds, k, n, true);
    RouteRowsSide(variants, preds, k, n, false);
    RouteRowsTallied(preds, k, n);
  }

  /** One side's map after n rows holds exactly those rows' calls on that side. */
  lemma {:induction false} RouteRowsSide(variants: seq<VariantInfo>, preds: seq<Prediction>, k: nat, n: nat, exclusive: bool)
    requires k > 0 && n <= |variants| <= |preds|
    ensures RoutedUpTo(SideRows(variants, preds, k, n, exclusive), variants, preds, k, n, exclusive)
  {
    if n > 0 {
      RouteRowsSide(variants, preds, k, n - 1, exclusive);
      RoutedExtend(SideRows(variants, preds, k, n - 1, exclusive), variants, preds, k, n - 1, exclusive);
    }
  }

  /** The counts and features after n rows are the key multiplicities and weight sums of those rows. */
  lemma {:induction false} RouteRowsTallied(preds: seq<Prediction>, k: nat, n: nat)
    requires k > 0 && n <= |preds|
    ensures TalliedUpTo(CountRows(preds, k, n), WeightRows(preds, k, n), preds, k, n)
  {
    if n == 0 {
      assert Keys(preds, k, 0) == [];
    } else {
      RouteRowsTallied(preds, k, n - 1);
      TalliedExtend(CountRows(preds, k, n - 1), WeightRows(preds, k, n - 1), preds, k, n - 1);
    }
  }

  /**
   * The routing loop. It fails when the prediction matrix has fewer rows than
   * there are variants. Otherwise every variant lies in exactly the bucket
   * its row's key names, counts are the multiplicities of the keys and
   * features the summed weights per key.
   */
  method Route(variants: seq<VariantInfo>, preds: seq<Prediction>) returns (r: Result<Routing, RoutingError>)
    ensures r.Ok? <==> |preds| >= |variants|
    ensures r.Ok? && |variants| > 0 ==>
              var k := |ClusterIds(preds)|;
              && k > 0
              && r.value == RouteRows(variants, preds, k, |variants|)
              && RoutedRows(r.value, variants, preds, k, |variants|)
    ensures r.Ok? && |variants| == 0 ==> r.value == Routing(map[], map[], map[], map[])
  {
    if |preds| < |variants| {
      return Err(PredictionRowMissing(|preds|));
    }
    var k := DistinctClusters(preds);
    if |variants| == 0 {
      return Ok(Routing(map[], map[], map[], map[]));
    }
    var st := RouteAll(variants, preds, k);
    RouteRowsCorrect(variants, preds, k, |variants|);
    return Ok(st);
  }

  /** The loop over the variant rows, each routed by its prediction row. */
  method RouteAll(variants: seq<VariantInfo>, preds: seq<Prediction>, k: nat) returns (st: Routing)
    requires k > 0 && |variants| <= |preds|
    ensures st == RouteRows(variants, preds, k, |variants|)
  {
    var thresh := 1.0 / (k as real);
    var exclusive: map<int, TidCalls> := map[];
    var shared: map<int, TidCalls> := map[];
    var counts: map<int, nat> := map[];
    var features: map<int, real> := map[];
    var i := 0;
    while i < |variants|
      invariant 0 <= i <= |variants|
      invariant Routing(exclusive, shared, counts, features) == RouteRows(variants, preds, k, i)
    {
      RouteRowsStep(variants, preds, k, i);
      exclusive, shared, counts, features := RouteRow(exclusive, shared, counts, features, variants[i], preds[i], thresh, k);
      i := i + 1;
    }
    return Routing(exclusive, shared, counts, features);
  }

  /** The body of the routing loop for one variant and its prediction row. */
  method RouteRow(exclusive: map<int, TidCalls>, shared: map<int, TidCalls>, counts: map<int, nat>,
                  features: map<int, real>, info: VariantInfo, p: Prediction, thresh: real, ghost k: nat)
    returns (exclusive': map<int, TidCalls>, shared': map<int, TidCalls>, counts': map<int, nat>, features': map<int, real>)
    requires k > 0 && thresh == 1.0 / (k as real)
    ensures Routing(exclusive', shared', counts', features') == NextRouting(Routing(exclusive, shared, counts, features), info, p, k)
  {
    var toExclusive := p.posterior >= thresh;
    var key := if toExclusive then CastI32(p.cluster) + 1 else 0;
    exclusive', shared' := exclusive, shared;
    if toExclusive {
      exclusive' := Insert(exclusive, key, info.tid, info.position, info.variant);
    } else {
      shared' := Insert(shared, key, info.tid, info.position, info.variant);
    }
    counts' := Bump(counts, key);
    features' := AddWeight(features, key, p.weight);
  }

  /** Row i joins the map on its side of the threshold and leaves the other side's map as it was. */
  lemma RoutedExtend(m: map<int, TidCalls>, variants: seq<VariantInfo>, preds: seq<Prediction>,
                     k: nat, i: nat, exclusive: bool)
    requires k > 0 && i < |variants| <= |preds|
    requires RoutedUpTo(m, variants, preds, k, i, exclusive)
    ensures RoutedUpTo(RouteCall(m, variants[i], preds[i], k, exclusive), variants, preds, k, i + 1, exclusive)
  {
    var info := variants[i];
    var m' := RouteCall(m, info, preds[i], k, exclusive);
    InsertHas(m, Key(preds[i], k), info.tid, info.position, info.variant);
    forall b, t, p, v
      ensures Has(m', b, t, p, v) <==> RoutedBefore(variants, preds, k, i + 1, exclusive, b, t, p, v)
    {
      if RoutedTo(variants, preds, k, i, exclusive, b, t, p, v) {
        assert Has(m', b, t, p, v);
      }
      if Has(m, b, t, p, v) {
        var j :| j < i && RoutedTo(variants, preds, k, j, exclusive, b, t, p, v);
        assert RoutedBefore(variants, preds, k, i + 1, exclusive, b, t, p, v);
      }
      if RoutedBefore(variants, preds, k, i + 1, exclusive, b, t, p, v) {
        var j :| j < i + 1 && RoutedTo(variants, preds, k, j, exclusive, b, t, p, v);
        if j < i {
          assert RoutedBefore(variants, preds, k, i, exclusive, b, t, p, v);
        }
      }
    }
  }

  /** Row i adds one to its key's count and its weight to its key's feature. */
  lemma TalliedExtend(counts: map<int, nat>, features: map<int, real>, preds: seq<Prediction>, k: nat, i: nat)
    requires k > 0 && i < |preds|
    requires TalliedUpTo(counts, features, preds, k, i)
    ensures var key := Key(preds[i], k);
            TalliedUpTo(Bump(counts, key), AddWeight(features, key, preds[i].weight), preds, k, i + 1)
  {
    var key := Key(preds[i], k);
    KeysStep(preds, k, i + 1);
    CountsExtend(counts, multiset(Keys(preds, k, i)), key);
    FeaturesExtend(counts, features, preds, k, i);
  }

  /** Adding one occurrence of a key to the multiset bumps exactly that key's count. */
  lemma CountsExtend(counts: map<int, nat>, before: multiset<int>, key: int)
    requires forall b :: b in counts <==> b in before
    requires forall b :: b in counts ==> counts[b] == before[b]
    ensures forall b :: b in Bump(counts, key) <==> b in before + multiset{key}
    ensures forall b :: b in Bump(counts, key) ==> Bump(counts, key)[b] == (before + multiset{key})[b]
  {
  }

  /** The features gain row i's weight under its key and keep every other key's sum. */
  lemma FeaturesExtend(counts: map<int, nat>, features: map<int, real>, preds: seq<Prediction>, k: nat, i: nat)
    requires k > 0 && i < |preds|
    requires TalliedUpTo(counts, features, preds, k, i)
    ensures var key := Key(preds[i], k);
            && AddWeight(features, key, preds[i].weight).Keys == Bump(counts, key).Keys
            && forall b :: b in AddWeight(features, key, preds[i].weight) ==>
                 AddWeight(features, key, preds[i].weight)[b] == WeightSum(preds, k, b, i + 1)
  {
    var key := Key(preds[i], k);
    var features' := AddWeight(features, key, preds[i].weight);
    forall b | b in features' ensures features'[b] == WeightSum(preds, k, b, i + 1) {
      assert WeightSum(preds, k, b, i + 1) == WeightSum(preds, k, b, i) + (if key == b then preds[i].weight else 0.0);
      if b == key && key !in features {
        assert key !in counts;
        WeightSumUnused(preds, k, key, i);
      }
    }
  }

  /** A key no row among the first n has gets no weight. */
  lemma {:induction false} WeightSumUnused(preds: seq<Prediction>, k: nat, b: int, n: nat)
    requires k > 0 && n <= |preds|
    requires multiset(Keys(preds, k, n))[b] == 0
    ensures WeightSum(preds, k, b, n) == 0.0
  {
    if n > 0 {
      assert Keys(preds, k, n) == Keys(preds, k, n - 1) + [Key(preds[n - 1], k)];
      WeightSumUnused(preds, k, b, n - 1);
    }
  }

  /** Each key's count is the number of rows routed to it, so the counts add up to the number of variants. */
  lemma CountsTotal(preds: seq<Prediction>, k: nat, n: nat)
    requires k > 0 && n <= |preds|
    ensures |multiset(Keys(preds, k, n))| == n
    ensures forall b :: multiset(Keys(preds, k, n))[b] == |KeyRows(preds, k, n, b)|
  {
    forall b ensures multiset(Keys(preds, k, n))[b] == |KeyRows(preds, k, n, b)| {
      KeyMultiplicity(preds, k, n, b);
    }
  }

  lemma {:induction false} KeyMultiplicity(preds: seq<Prediction>, k: nat, n: nat, b: int)
    requires k > 0 && n <= |preds|
    ensures multiset(Keys(preds, k, n))[b] == |KeyRows(preds, k, n, b)|
  {
    if n > 0 {
      KeyMultiplicity(preds, k, n - 1, b);
      KeysStep(preds, k, n);
      KeyRowsStep(preds, k, n, b);
      if Key(preds[n - 1], k) == b {
        assert multiset(Keys(preds, k, n))[b] == multiset(Keys(preds, k, n - 1))[b] + 1;
      } else {
        assert multiset(Keys(preds, k, n))[b] == multiset(Keys(preds, k, n - 1))[b];
      }
    }
  }

  /** The rows among the first n whose key is b. */
  ghost function KeyRows(preds: seq<Prediction>, k: nat, n: nat, b: int): set<int>
    requires k > 0 && n <= |preds|
  {
    set j | 0 <= j < n && Key(preds[j], k) == b
  }

  lemma KeysStep(preds: seq<Prediction>, k: nat, n: nat)
    requires k > 0 && 0 < n <= |preds|
    ensures Keys(preds, k, n) == Keys(preds, k, n - 1) + [Key(preds[n - 1], k)]
  {
  }

  lemma KeyRowsStep(preds: seq<Prediction>, k: nat, n: nat, b: int)
    requires k > 0 && 0 < n <= |preds|
    ensures n - 1 !in KeyRows(preds, k, n - 1, b)
    ensures KeyRows(preds, k, n, b) == KeyRows(preds, k, n - 1, b) + (if Key(preds[n - 1], k) == b then {n - 1} else {})
  {
  }

  /**
   * A row goes to the exclusive map exactly when its posterior reaches 1/k,
   * under a key one above its cluster id; otherwise it goes to the shared map
   * under key 0.
   */
  lemma KeyRule(p: Prediction, k: nat)
    requires k > 0
    ensures IsExclusive(p, k) <==> p.posterior * (k as real) >= 1.0
    ensures IsExclusive(p, k) ==> Key(p, k) == CastI32(p.cluster) + 1
    ensures !IsExclusive(p, k) ==> Key(p, k) == 0
  {
    var kr := k as real;
    if p.posterior >= 1.0 / kr {
      assert p.posterior * kr >= (1.0 / kr) * kr;
    } else {
      assert p.posterior * kr < (1.0 / kr) * kr;
    }
  }

  /** With three clusters a posterior of 0.4 is exclusive and 0.3 is shared. */
  lemma RoutingExample()
    ensures Key(Prediction(2.0, 0.4, 1.0), 3) == 3
    ensures Key(Prediction(2.0, 0.3, 1.0), 3) == 0
  {
    KeyRule(Prediction(2.0, 0.4, 1.0), 3);
    KeyRule(Prediction(2.0, 0.3, 1.0), 3);
  }
}
