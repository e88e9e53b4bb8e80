/**
 * NNDSVD seeding of a nonnegative matrix factorisation: the sign split of the
 * singular vectors, the choice between the positive and the negative pairing,
 * the column/row writes into W and H, and the final clamp to zero.
 *
 * The singular value decomposition, vector norms, square roots and the f32
 * element-wise division are abstract inputs (`Svd`, `Numerics`); everything
 * else is exact over the reals.
 */
module Seeding {
  import W = Wrappers

  /** `Seed`: NNDSVD with a target rank, or no seeding at all. */
  datatype Seed = Nndsvd(rank: nat) | None

  datatype SeedError =
    | Exit(status: int)             // `process::exit(1)` for `Seed::None`
    | RankOutOfRange(rank: nat)     // a slice or index panic in the component loop

  /**
   * A decomposition of a rows x cols matrix: singular values `s`, the columns of
   * U (`u[j]` has `rows` entries) and the columns of V (`e[j]` has `cols` entries).
   */
  datatype Svd = Svd(s: seq<real>, u: seq<seq<real>>, e: seq<seq<real>>)

  /** The numeric primitives the model does not compute itself. */
  datatype Numerics = Numerics(norm: seq<real> -> real, sqrt: real -> real, quotient: (real, real) -> real)

  datatype Factors = Factors(w: array2<real>, h: array2<real>)

  /** The shapes `ndarray_linalg`'s full SVD returns for a rows x cols matrix. */
  predicate SvdShape(svd: Svd, rows: nat, cols: nat)
  {
    && |svd.s| <= rows && |svd.s| <= cols
    && |svd.u| == rows && |svd.e| == cols
    && (forall j :: 0 <= j < |svd.u| ==> |svd.u[j]| == rows)
    && (forall j :: 0 <= j < |svd.e| ==> |svd.e[j]| == cols)
  }

  // ---------------------------------------------------------------------------
  // Sign split.

  function PosMask(x: real): real { if x >= 0.0 then 1.0 else 0.0 }

  function NegMask(x: real): real { if x < 0.0 then 1.0 else 0.0 }

  /** `pos`: a 0/1 mask of the nonnegative entries times the vector. */
  function Pos(x: seq<real>): (r: seq<real>)
    ensures |r| == |x|
    ensures forall i :: 0 <= i < |x| ==> r[i] == (if x[i] >= 0.0 then x[i] else 0.0)
  {
    seq(|x|, i requires 0 <= i < |x| => PosMask(x[i]) * x[i])
  }

  /** `neg`: a 0/1 mask of the negative entries times the negated vector. */
  function Neg(x: seq<real>): (r: seq<real>)
    ensures |r| == |x|
    ensures forall i :: 0 <= i < |x| ==> r[i] == (if x[i] < 0.0 then -x[i] else 0.0)
  {
    seq(|x|, i requires 0 <= i < |x| => NegMask(x[i]) * -x[i])
  }

  /** Both parts are nonnegative, at most one is nonzero at each index, and their difference is the vector. */
  lemma PosNegSplit(x: seq<real>)
    ensures |Pos(x)| == |x| && |Neg(x)| == |x|
    ensures forall i :: 0 <= i < |x| ==> Pos(x)[i] >= 0.0 && Neg(x)[i] >= 0.0
    ensures forall i :: 0 <= i < |x| ==> Pos(x)[i] - Neg(x)[i] == x[i]
    ensures forall i :: 0 <= i < |x| ==> Pos(x)[i] == 0.0 || Neg(x)[i] == 0.0
  {
  }

  // ---------------------------------------------------------------------------
  // The pairing of component i >= 1.

  datatype Pairing = Pairing(positive: bool, uPart: seq<real>, vPart: seq<real>, term: real)

  /**
   * Picks the positive parts of both singular vectors when the product of
   * their norms is at least that of the negative parts (ties go to positive),
   * and the negative parts otherwise.
   */
  function ChoosePairing(u: seq<real>, v: seq<real>, norm: seq<real> -> real): (p: Pairing)
    ensures p.positive <==> norm(Pos(u)) * norm(Pos(v)) >= norm(Neg(u)) * norm(Neg(v))
    ensures p.term == norm(p.uPart) * norm(p.vPart)
    ensures p.term >= norm(Pos(u)) * norm(Pos(v)) && p.term >= norm(Neg(u)) * norm(Neg(v))
    ensures p.uPart == (if p.positive then Pos(u) else Neg(u))
    ensures p.vPart == (if p.positive then Pos(v) else Neg(v))
  {
    var termp := norm(Pos(u)) * norm(Pos(v));
    var termn := norm(Neg(u)) * norm(Neg(v));
    if termp >= termn then Pairing(true, Pos(u), Pos(v), termp)
    else Pairing(false, Neg(u), Neg(v), termn)
  }

  /** The chosen parts are nonnegative and vanish wherever the vector has the other sign. */
  lemma PairingParts(u: seq<real>, v: seq<real>, norm: seq<real> -> real)
    ensures var p := ChoosePairing(u, v, norm);
            && |p.uPart| == |u| && |p.vPart| == |v|
            && (forall k :: 0 <= k < |u| ==> p.uPart[k] >= 0.0)
            && (forall k :: 0 <= k < |v| ==> p.vPart[k] >= 0.0)
            && (forall k :: 0 <= k < |u| ==> p.uPart[k] == (if p.positive == (u[k] >= 0.0) then (if u[k] >= 0.0 then u[k] else -u[k]) else 0.0))
  {
  }

  /**
   * The values written for a chosen part: sqrt(s * term) divided entry by
   * entry by the part scaled by its own norm.
   */
  function Factor(scale: real, part: seq<real>, ops: Numerics): (r: seq<real>)
    ensures |r| == |part|
  {
    seq(|part|, k requires 0 <= k < |part| => ops.quotient(scale, part[k] * ops.norm(part)))
  }

  /** Column i of W before the clamp. */
  function ComponentColumn(svd: Svd, ops: Numerics, i: nat, rows: nat, cols: nat): (col: seq<real>)
    requires SvdShape(svd, rows, cols) && 1 <= i < |svd.s|
    ensures |col| == rows
  {
    var p := ChoosePairing(svd.u[i], svd.e[i], ops.norm);
    Factor(ops.sqrt(svd.s[i] * p.term), p.uPart, ops)
  }

  /** Row i of H before the clamp. */
  function ComponentRow(svd: Svd, ops: Numerics, i: nat, rows: nat, cols: nat): (row: seq<real>)
    requires SvdShape(svd, rows, cols) && 1 <= i < |svd.s|
    ensures |row| == cols
  {
    var p := ChoosePairing(svd.u[i], svd.e[i], ops.norm);
    Factor(ops.sqrt(svd.s[i] * p.term), p.vPart, ops)
  }

  function Abs(x: real): real { if x >= 0.0 then x else -x }

  /** Entry (a, b) of W before the clamp: column 0 from the first triplet, the others per component. */
  ghost function WEntry(svd: Svd, ops: Numerics, rows: nat, cols: nat, a: nat, b: nat): real
    requires SvdShape(svd, rows, cols) && a < rows && b < |svd.s|
  {
    if b == 0 then ops.sqrt(svd.s[0]) * Abs(svd.u[0][a])
    else ComponentColumn(svd, ops, b, rows, cols)[a]
  }

  /** Entry (a, b) of H before the clamp. */
  ghost function HEntry(svd: Svd, ops: Numerics, rows: nat, cols: nat, a: nat, b: nat): real
    requires SvdShape(svd, rows, cols) && a < |svd.s| && b < cols
  {
    if a == 0 then ops.sqrt(svd.s[0]) * Abs(svd.e[0][b])
    else ComponentRow(svd, ops, a, rows, cols)[b]
  }

  /** Column 0 of W and row 0 of H are absolute values times a nonnegative factor. */
  lemma LeadingComponentNonnegative(svd: Svd, ops: Numerics, rows: nat, cols: nat)
    requires SvdShape(svd, rows, cols) && |svd.s| > 0
    requires ops.sqrt(svd.s[0]) >= 0.0
    ensures forall a :: 0 <= a < rows ==> WEntry(svd, ops, rows, cols, a, 0) >= 0.0
    ensures forall b :: 0 <= b < cols ==> HEntry(svd, ops, rows, cols, 0, b) >= 0.0
  {
    forall a | 0 <= a < rows ensures WEntry(svd, ops, rows, cols, a, 0) >= 0.0 {
      assert Abs(svd.u[0][a]) >= 0.0;
    }
    forall b | 0 <= b < cols ensures HEntry(svd, ops, rows, cols, 0, b) >= 0.0 {
      assert Abs(svd.e[0][b]) >= 0.0;
    }
  }

  // ---------------------------------------------------------------------------
  // The clamp to zero.

  /** Entries below the threshold become 0; the others are kept. */
  function Clamp(x: real, threshold: real): (r: real)
    ensures r == 0.0 || r >= threshold
    ensures r == x || r == 0.0
    ensures x >= threshold ==> r == x
  {
    if x < threshold then 0.0 else x
  }

  /** A second clamp changes nothing, and with a positive threshold every clamped value is nonnegative. */
  lemma ClampIdempotent(x: real, threshold: real)
    ensures Clamp(Clamp(x, threshold), threshold) == Clamp(x, threshold)
    ensures threshold > 0.0 ==> Clamp(x, threshold) >= 0.0
  {
  }

  method ClampInPlace(m: array2<real>, threshold: real)
    modifies m
    ensures forall a, b :: 0 <= a < m.Length0 && 0 <= b < m.Length1 ==> m[a, b] == Clamp(old(m[a, b]), threshold)
  {
    var a := 0;
    while a < m.Length0
      invariant 0 <= a <= m.Length0
      invariant forall x, y :: 0 <= x < a && 0 <= y < m.Length1 ==> m[x, y] == Clamp(old(m[x, y]), threshold)
      invariant forall x, y :: a <= x < m.Length0 && 0 <= y < m.Length1 ==> m[x, y] == old(m[x, y])
    {
      var b := 0;
      while b < m.Length1
        invariant 0 <= b <= m.Length1
        invariant forall x, y :: 0 <= x < a && 0 <= y < m.Length1 ==> m[x, y] == Clamp(old(m[x, y]), threshold)
        invariant forall y :: 0 <= y < b ==> m[a, y] == Clamp(old(m[a, y]), threshold)
        invariant forall y :: b <= y < m.Length1 ==> m[a, y] == old(m[a, y])
        invariant forall x, y :: a < x < m.Length0 && 0 <= y < m.Length1 ==> m[x, y] == old(m[x, y])
      {
        m[a, b] := Clamp(m[a, b], threshold);
        b := b + 1;
      }
      a := a + 1;
    }
  }

  // ---------------------------------------------------------------------------
  // Disjoint writes.

  /** Assigns column `i` of `m`; every other column is left as it was. */
  method WriteColumn(m: array2<real>, i: nat, col: seq<real>)
    requires i < m.Length1 && |col| == m.Length0
    modifies m
    ensures forall a, b :: 0 <= a < m.Length0 && 0 <= b < m.Length1 ==>
              m[a, b] == (if b == i then col[a] else old(m[a, b]))
  {
    var a := 0;
    while a < m.Length0
      invariant 0 <= a <= m.Length0
      invariant forall x, y :: 0 <= x < m.Length0 && 0 <= y < m.Length1 ==>
                  m[x, y] == (if y == i && x < a then col[x] else old(m[x, y]))
    {
      m[a, i] := col[a];
      a := a + 1;
    }
  }

  /** Assigns row `i` of `m`; every other row is left as it was. */
  method WriteRow(m: array2<real>, i: nat, row: seq<real>)
    requires i < m.Length0 && |row| == m.Length1
    modifies m
    ensures forall a, b :: 0 <= a < m.Length0 && 0 <= b < m.Length1 ==>
              m[a, b] == (if a == i then row[b] else old(m[a, b]))
  {
    var b := 0;
    while b < m.Length1
      invariant 0 <= b <= m.Length1
      invariant forall x, y :: 0 <= x < m.Length0 && 0 <= y < m.Length1 ==>
                  m[x, y] == (if x == i && y < b then row[y] else old(m[x, y]))
    {
      m[i, b] := row[b];
      b := b + 1;
    }
  }

  // ---------------------------------------------------------------------------
  // `initialize`.

  /** Column 0 of W and row 0 of H from the leading singular triplet. */
  method WriteLeading(w: array2<real>, h: array2<real>, svd: Svd, ops: Numerics, rows: nat, cols: nat)
    requires SvdShape(svd, rows, cols) && 0 < w.Length1 <= |svd.s|
    requires w.Length0 == rows && h.Length0 == w.Length1 && h.Length1 == cols && w != h
    modifies w, h
    ensures forall a :: 0 <= a < rows ==> w[a, 0] == WEntry(svd, ops, rows, cols, a, 0)
    ensures forall b :: 0 <= b < cols ==> h[0, b] == HEntry(svd, ops, rows, cols, 0, b)
  {
    var root := ops.sqrt(svd.s[0]);
    var col0 := seq(rows, a requires 0 <= a < rows => root * Abs(svd.u[0][a]));
    var row0 := seq(cols, b requires 0 <= b < cols => root * Abs(svd.e[0][b]));
    WriteColumn(w, 0, col0);
    WriteRow(h, 0, row0);
  }

  /** Column i of W and row i of H from component i, for every i from 1 below the rank. */
  method WriteComponents(w: array2<real>, h: array2<real>, svd: Svd, ops: Numerics, rows: nat, cols: nat)
    requires SvdShape(svd, rows, cols) && 0 < w.Length1 <= |svd.s|
    requires w.Length0 == rows && h.Length0 == w.Length1 && h.Length1 == cols && w != h
    requires forall a :: 0 <= a < rows ==> w[a, 0] == WEntry(svd, ops, rows, cols, a, 0)
    requires forall b :: 0 <= b < cols ==> h[0, b] == HEntry(svd, ops, rows, cols, 0, b)
    modifies w, h
    ensures forall a, b :: 0 <= a < rows && 0 <= b < w.Length1 ==> w[a, b] == WEntry(svd, ops, rows, cols, a, b)
    ensures forall a, b :: 0 <= a < h.Length0 && 0 <= b < cols ==> h[a, b] == HEntry(svd, ops, rows, cols, a, b)
  {
    var i := 1;
    while i < w.Length1
      invariant 1 <= i <= w.Length1
      invariant forall a, b :: 0 <= a < rows && 0 <= b < i ==> w[a, b] == WEntry(svd, ops, rows, cols, a, b)
      invariant forall a, b :: 0 <= a < i && 0 <= b < cols ==> h[a, b] == HEntry(svd, ops, rows, cols, a, b)
    {
      WriteColumn(w, i, ComponentColumn(svd, ops, i, rows, cols));
      WriteRow(h, i, ComponentRow(svd, ops, i, rows, cols));
      i := i + 1;
    }
  }

  /**
   * `Seed::initialize`. `Seed::None` exits with status 1; a rank of 0 or above
   * the number of singular values panics. Otherwise W (rows x rank) and H
   * (rank x cols) hold the leading triplet in column/row 0 and component i in
   * column/row i, every entry clamped below `threshold` (e^-11 in f32).
   */
  method Initialize(seed: Seed, rows: nat, cols: nat, svd: Svd, ops: Numerics, threshold: real)
    returns (r: W.Result<Factors, SeedError>)
    requires SvdShape(svd, rows, cols)
    ensures seed.None? ==> r == W.Err(Exit(1))
    ensures seed.Nndsvd? ==> (r.Ok? <==> 1 <= seed.rank <= |svd.s|)
    ensures seed.Nndsvd? && r.Err? ==> r.error == RankOutOfRange(seed.rank)
    ensures r.Ok? ==> var f := r.value;
              && fresh(f.w) && fresh(f.h) && f.w != f.h
              && f.w.Length0 == rows && f.w.Length1 == seed.rank
              && f.h.Length0 == seed.rank && f.h.Length1 == cols
              && (forall a, b :: 0 <= a < rows && 0 <= b < seed.rank ==>
                    f.w[a, b] == Clamp(WEntry(svd, ops, rows, cols, a, b), threshold))
              && (forall a, b :: 0 <= a < seed.rank && 0 <= b < cols ==>
                    f.h[a, b] == Clamp(HEntry(svd, ops, rows, cols, a, b), threshold))
  {
    if seed.None? {
      return W.Err(Exit(1));
    }
    var rank := seed.rank;
    if rank == 0 || rank > |svd.s| {
      return W.Err(RankOutOfRange(rank));
    }
    var w := new real[rows, rank]((_, _) => 0.0);
    var h := new real[rank, cols]((_, _) => 0.0);
    WriteLeading(w, h, svd, ops, rows, cols);
    WriteComponents(w, h, svd, ops, rows, cols);
    ClampInPlace(w, threshold);
    ClampInPlace(h, threshold);
    r := W.Ok(Factors(w, h));
  }
}
