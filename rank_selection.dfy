/**
 * Choosing the factorisation rank in `generate_distances`: the candidate rank
 * range, the per-run thread split, the residual parse rule and the
 * local-minimum selection over the residuals.
 */
module RankSelection {
  import opened Wrappers

  const MinRankCap: nat := 4
  const MaxRankCap: nat := 25
  /** 2^64: `usize` arithmetic wraps modulo this in a release build. */
  const UsizeModulus: int := 0x1_0000_0000_0000_0000

  function Min(a: nat, b: nat): nat { if a <= b then a else b }

  /**
   * The ranks handed to the factorisation runs: rank + 1 for every rank in
   * [min(4, n), min(25, n)); no candidates at all when fewer than 2 variants
   * were collected.
   */
  function CandidateRanks(n: nat): (r: Option<seq<nat>>)
    ensures n < 2 <==> r.None?
    ensures r.Some? ==> |r.value| == Min(MaxRankCap, n) - Min(MinRankCap, n)
    ensures r.Some? ==> forall i :: 0 <= i < |r.value| ==> r.value[i] == Min(MinRankCap, n) + i + 1
    ensures r.Some? ==> forall i :: 0 <= i < |r.value| ==> 5 <= r.value[i] <= 25
  {
    if n < 2 then None
    else
      var lo := Min(MinRankCap, n);
      Some(seq(Min(MaxRankCap, n) - lo, i requires 0 <= i => lo + i + 1))
  }

  /** Five to 25 variants give ranks 5..n; 25 or more give all 21 ranks 5..25; 2 to 4 give none. */
  lemma CandidateRankRange(n: nat)
    requires n >= 2
    ensures n <= 4 ==> CandidateRanks(n) == Some([])
    ensures 4 <= n <= 25 ==> CandidateRanks(n).value == seq(n - 4, i => i + 5)
    ensures n >= 25 ==> |CandidateRanks(n).value| == 21 && CandidateRanks(n).value[20] == 25
  {
    if 4 <= n <= 25 {
      var r := CandidateRanks(n).value;
      assert |r| == n - 4;
      assert forall i :: 0 <= i < |r| ==> r[i] == i + 5;
    }
  }

  /** The residual printed by one run: an unparsable output counts as 0.0. */
  function Residual(parsed: Option<real>): (rss: real)
    ensures parsed.Some? ==> rss == parsed.value
    ensures parsed.None? ==> rss == 0.0
  {
    match parsed
    case Some(v) => v
    case None => 0.0
  }

  // ---------------------------------------------------------------------------
  // The thread split (line 512).

  datatype ThreadError = DivisionByZero

  /**
   * The split as written: `threads / (max_rank - min_rank - 1)` in `usize`,
   * raised to at least 1. A span of 0 wraps the subtraction round to
   * 2^64 - 1 (release build); a span of 1 divides by zero.
   */
  function InnerThreadsAsWritten(threads: nat, n: nat): (r: Result<nat, ThreadError>)
    requires threads < UsizeModulus
    ensures r.Err? <==> Min(MaxRankCap, n) - Min(MinRankCap, n) == 1
    ensures r.Ok? ==> r.value >= 1
  {
    var span := Min(MaxRankCap, n) - Min(MinRankCap, n);
    var divisor := (span - 1) % UsizeModulus;
    if divisor == 0 then Err(DivisionByZero)
    else
      var t := threads / divisor;
      Ok(if t < 1 then 1 else t)
  }

  /** Five variants pass the fewer-than-2 guard and then divide by zero. */
  lemma InnerThreadsFailsForFiveVariants(threads: nat)
    requires threads < UsizeModulus
    ensures CandidateRanks(5).Some?
    ensures InnerThreadsAsWritten(threads, 5) == Err(DivisionByZero)
  {
  }

  /** Two to four variants leave no candidate rank, and the subtraction underflows. */
  lemma InnerThreadsUnderflowsForFewVariants(n: nat)
    requires 2 <= n <= 4
    ensures CandidateRanks(n) == Some([])
    ensures Min(MaxRankCap, n) - Min(MinRankCap, n) - 1 < 0
  {
  }

  /**
   * The split as intended: the threads shared among the runs after the
   * first, never fewer than one per run, defined for every variant count.
   */
  function InnerThreads(threads: nat, n: nat): (r: nat)
    ensures r >= 1
    ensures Min(MaxRankCap, n) - Min(MinRankCap, n) >= 2 ==>
              r == (if threads / (Min(MaxRankCap, n) - Min(MinRankCap, n) - 1) < 1 then 1
                    else threads / (Min(MaxRankCap, n) - Min(MinRankCap, n) - 1))
  {
    var span := Min(MaxRankCap, n) - Min(MinRankCap, n);
    var divisor := if span >= 2 then span - 1 else 1;
    var t := threads / divisor;
    if t < 1 then 1 else t
  }

  /** With at least two candidate ranks the written split succeeds and the intended one agrees with it. */
  lemma InnerThreadsAgrees(threads: nat, n: nat)
    requires threads < UsizeModulus
    requires Min(MaxRankCap, n) - Min(MinRankCap, n) >= 2
    ensures InnerThreadsAsWritten(threads, n) == Ok(InnerThreads(threads, n))
  {
  }

  // ---------------------------------------------------------------------------
  // Local-minimum selection.

  /**
   * The length of the longest non-increasing prefix of the residuals: the
   * scan keeps going while each residual is at most the best so far.
   */
  function DescentLength(rss: seq<real>): (m: nat)
    ensures |rss| == 0 <==> m == 0
    ensures m <= |rss|
    ensures forall i :: 0 < i < m ==> rss[i] <= rss[i - 1]
    ensures 0 < m < |rss| ==> rss[m] > rss[m - 1]
  {
    if |rss| <= 1 then |rss|
    else if rss[1] <= rss[0] then 1 + DescentLength(rss[1..])
    else 1
  }

  /** The rank picked from residuals of ranks minRank + 1, minRank + 2, ...; 0 when there were none. */
  function SelectedRank(rss: seq<real>, minRank: nat): nat
  {
    if |rss| == 0 then 0 else DescentLength(rss) + minRank
  }

  /**
   * The best-rank loop. The first residual is taken as the best; a residual at
   * most the best replaces it (ties go to the later rank); the first strictly
   * larger residual ends the scan.
   */
  method SelectRank(rss: seq<real>, minRank: nat) returns (bestRank: nat, bestRss: real)
    ensures bestRank == SelectedRank(rss, minRank)
    ensures |rss| == 0 ==> bestRss == 0.0
    ensures |rss| > 0 ==> bestRss == rss[bestRank - minRank - 1]
    ensures forall i :: 0 <= i < |rss| && i < DescentLength(rss) ==> bestRss <= rss[i]
  {
    bestRank := 0;
    bestRss := 0.0;
    var rank := 0;
    while rank < |rss|
      invariant 0 <= rank <= |rss|
      invariant rank <= DescentLength(rss)
      invariant rank == 0 ==> bestRank == 0 && bestRss == 0.0
      invariant rank > 0 ==> bestRank == rank + minRank && bestRss == rss[rank - 1]
    {
      if bestRank == 0 && bestRss == 0.0 && rank == 0 {
        bestRank := rank + minRank + 1;
        bestRss := rss[rank];
      } else if bestRss >= rss[rank] {
        bestRss := rss[rank];
        bestRank := rank + minRank + 1;
      } else {
        break;
      }
      rank := rank + 1;
    }
    if |rss| > 0 {
      NonIncreasingPrefixBound(rss, DescentLength(rss));
    }
  }

  /** Along a non-increasing prefix every residual is at least the last one. */
  lemma {:induction false} NonIncreasingPrefixBound(rss: seq<real>, m: nat)
    requires 0 < m <= |rss|
    requires forall i :: 0 < i < m ==> rss[i] <= rss[i - 1]
    ensures forall i :: 0 <= i < m ==> rss[m - 1] <= rss[i]
  {
    if m > 1 {
      NonIncreasingPrefixBound(rss, m - 1);
    }
  }

  /** The residual vector of the runs, one parse result per run in rank order. */
  function Residuals(parsed: seq<Option<real>>): (rss: seq<real>)
    ensures |rss| == |parsed|
  {
    seq(|parsed|, i requires 0 <= i < |parsed| => Residual(parsed[i]))
  }

  /**
   * A run whose output does not parse counts as residual 0, below every real
   * (nonnegative) residual: once the scan reaches it, it is never left for a
   * later rank with a positive residual. The rank picked is at least that
   * run's, and the residual picked is 0.
   */
  lemma FailedRunSelected(parsed: seq<Option<real>>, minRank: nat, j: nat)
    requires j < |parsed| && parsed[j].None?
    requires forall i :: 0 <= i < |parsed| && parsed[i].Some? ==> parsed[i].value >= 0.0
    requires DescentLength(Residuals(parsed)) >= j
    ensures SelectedRank(Residuals(parsed), minRank) >= minRank + j + 1
    ensures Residuals(parsed)[SelectedRank(Residuals(parsed), minRank) - minRank - 1] == 0.0
  {
    var rss := Residuals(parsed);
    var m := DescentLength(rss);
    assert rss[j] == 0.0;
    assert forall i :: 0 <= i < |rss| ==> rss[i] >= 0.0 by {
      forall i | 0 <= i < |rss| ensures rss[i] >= 0.0 {
        assert rss[i] == Residual(parsed[i]);
      }
    }
    if m == j {
      assert false;
    }
    NonIncreasingPrefixBound(rss, m);
  }

  /** A failed run between two real residuals wins over the smaller later one. */
  lemma FailedRunExample()
    ensures SelectedRank(Residuals([Some(5.0), None, Some(1.0)]), 4) == 6
  {
    var rss := Residuals([Some(5.0), None, Some(1.0)]);
    assert rss == [5.0, 0.0, 1.0];
    assert rss[1..] == [0.0, 1.0];
  }

  /** A dip at the third run and a rise after it select rank min_rank + 3; a tie moves the choice later. */
  lemma SelectionExamples()
    ensures SelectedRank([5.0, 3.0, 3.0, 4.0, 1.0], 4) == 7
    ensures SelectedRank([2.0, 3.0, 1.0], 4) == 5
    ensures SelectedRank([], 4) == 0
  {
    assert DescentLength([5.0, 3.0, 3.0, 4.0, 1.0]) == 3 by {
      assert [5.0, 3.0, 3.0, 4.0, 1.0][1..] == [3.0, 3.0, 4.0, 1.0];
      assert [3.0, 3.0, 4.0, 1.0][1..] == [3.0, 4.0, 1.0];
    }
  }
}
