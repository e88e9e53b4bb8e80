/**
 * Finding the k cluster roots of a hierarchical-clustering dendrogram in
 * `generate_genotypes`.
 *
 * A dendrogram over n_1 + 1 observations has n_1 merge steps. Labels 0..n_1
 * are the observations (leaves); step i creates the internal label
 * n_1 + 1 + i, so the last step creates the root 2 * n_1.
 */
module RootDiscovery {
  import opened Wrappers

  datatype Step = Step(cluster1: nat, cluster2: nat, size: nat)

  type Dendrogram = seq<Step>

  /** The label created by step i. */
  function StepLabel(d: Dendrogram, i: nat): nat { |d| + 1 + i }

  /** The root label, created by the last step. */
  function RootLabel(d: Dendrogram): nat { 2 * |d| }

  /** A label names an internal node exactly when it is greater than n_1. */
  predicate IsInternal(d: Dendrogram, node: nat) { node > |d| }

  /** Every step merges clusters that already exist when it runs. */
  predicate LabelsOrdered(d: Dendrogram)
  {
    forall i :: 0 <= i < |d| ==> d[i].cluster1 < StepLabel(d, i) && d[i].cluster2 < StepLabel(d, i)
  }

  /** The observations under a label. */
  ghost function Leaves(d: Dendrogram, node: nat): set<nat>
    requires LabelsOrdered(d) && node <= RootLabel(d)
    decreases node
  {
    if node <= |d| then {node}
    else
      var step := d[node - |d| - 1];
      Leaves(d, step.cluster1) + Leaves(d, step.cluster2)
  }

  /**
   * A dendrogram as the clustering library builds it: labels are ordered, the
   * two sides of each merge share no observation, and the root covers them all.
   */
  ghost predicate WellFormed(d: Dendrogram)
  {
    && |d| > 0
    && LabelsOrdered(d)
    && (forall i :: 0 <= i < |d| ==> SidesDisjoint(d, i))
    && Leaves(d, RootLabel(d)) == Range(|d| + 1)
  }

  /** The labels below n. */
  function Range(n: nat): (r: set<nat>)
    ensures forall i: nat :: i in r <==> i < n
    ensures |r| == n
  {
    if n == 0 then {} else assert n - 1 !in Range(n - 1); Range(n - 1) + {n - 1}
  }

  /** The two sides of merge i share no observation. */
  ghost predicate SidesDisjoint(d: Dendrogram, i: nat)
    requires LabelsOrdered(d) && i < |d|
  {
    Leaves(d, d[i].cluster1) !! Leaves(d, d[i].cluster2)
  }

  lemma {:induction false} LeavesNonEmpty(d: Dendrogram, node: nat)
    requires LabelsOrdered(d) && node <= RootLabel(d)
    ensures Leaves(d, node) != {}
    decreases node
  {
    if node > |d| {
      var step := d[node - |d| - 1];
      LeavesNonEmpty(d, step.cluster1);
    }
  }

  /** Every observation under a label is a leaf label. */
  lemma {:induction false} LeavesAreLeaves(d: Dendrogram, node: nat)
    requires LabelsOrdered(d) && node <= RootLabel(d)
    ensures forall l :: l in Leaves(d, node) ==> l <= |d|
    decreases node
  {
    if node > |d| {
      var step := d[node - |d| - 1];
      LeavesAreLeaves(d, step.cluster1);
      LeavesAreLeaves(d, step.cluster2);
    }
  }

  /** In a well-formed dendrogram a label is internal exactly when it covers two or more observations. */
  lemma InternalIffSplits(d: Dendrogram, node: nat)
    requires WellFormed(d) && node <= RootLabel(d)
    ensures IsInternal(d, node) <==> |Leaves(d, node)| >= 2
  {
    if IsInternal(d, node) {
      var i := node - |d| - 1;
      assert SidesDisjoint(d, i);
      LeavesNonEmpty(d, d[i].cluster1);
      LeavesNonEmpty(d, d[i].cluster2);
      var x :| x in Leaves(d, d[i].cluster1);
      var y :| y in Leaves(d, d[i].cluster2);
      assert {x, y} <= Leaves(d, node);
    }
  }

  predicate ValidLabels(d: Dendrogram, labels: seq<nat>)
  {
    forall i :: 0 <= i < |labels| ==> labels[i] <= RootLabel(d)
  }

  /** The observations under any of the labels. */
  ghost function Covered(d: Dendrogram, labels: seq<nat>): set<nat>
    requires LabelsOrdered(d) && ValidLabels(d, labels)
  {
    if |labels| == 0 then {} else Covered(d, labels[..|labels| - 1]) + Leaves(d, labels[|labels| - 1])
  }

  /** No two of the labels share an observation. */
  ghost predicate Disjoint(d: Dendrogram, labels: seq<nat>)
    requires LabelsOrdered(d) && ValidLabels(d, labels)
  {
    forall i, j :: 0 <= i < j < |labels| ==> Leaves(d, labels[i]) !! Leaves(d, labels[j])
  }

  lemma {:induction false} CoveredAppend(d: Dendrogram, a: seq<nat>, b: seq<nat>)
    requires LabelsOrdered(d) && ValidLabels(d, a) && ValidLabels(d, b)
    ensures ValidLabels(d, a + b)
    ensures Covered(d, a + b) == Covered(d, a) + Covered(d, b)
    decreases |b|
  {
    if |b| == 0 {
      assert a + b == a;
    } else {
      var b' := b[..|b| - 1];
      assert (a + b)[..|a + b| - 1] == a + b';
      assert (a + b)[|a + b| - 1] == b[|b| - 1];
      CoveredAppend(d, a, b');
      assert Covered(d, a + b) == Covered(d, a + b') + Leaves(d, b[|b| - 1]);
    }
  }

  lemma {:induction false} CoveredSingle(d: Dendrogram, l: nat)
    requires LabelsOrdered(d) && l <= RootLabel(d)
    ensures Covered(d, [l]) == Leaves(d, l)
  {
    assert [l][..0] == [];
  }

  /** A sequence of labels whose observation sets are pairwise disjoint covers at least as many observations as it has labels. */
  lemma {:induction false} DisjointCoverCount(d: Dendrogram, labels: seq<nat>)
    requires LabelsOrdered(d) && ValidLabels(d, labels) && Disjoint(d, labels)
    ensures |Covered(d, labels)| >= |labels|
    decreases |labels|
  {
    if |labels| > 0 {
      var init := labels[..|labels| - 1];
      var last := labels[|labels| - 1];
      DisjointCoverCount(d, init);
      LeavesNonEmpty(d, last);
      forall l | l in Covered(d, init) ensures l !in Leaves(d, last) {
        CoveredWitness(d, init, l);
      }
      var x :| x in Leaves(d, last);
      assert Covered(d, init) <= Covered(d, labels) - {x};
    }
  }

  /** An observation covered by some labels lies under one of them. */
  lemma {:induction false} CoveredWitness(d: Dendrogram, labels: seq<nat>, l: nat)
    requires LabelsOrdered(d) && ValidLabels(d, labels)
    requires l in Covered(d, labels)
    ensures exists i :: 0 <= i < |labels| && l in Leaves(d, labels[i])
    decreases |labels|
  {
    var last := |labels| - 1;
    if l !in Leaves(d, labels[last]) {
      CoveredWitness(d, labels[..last], l);
      var i :| 0 <= i < last && l in Leaves(d, labels[..last][i]);
      assert labels[..last][i] == labels[i];
    }
  }

  /** Labels that are all leaves cover exactly themselves. */
  lemma {:induction false} AllLeavesCover(d: Dendrogram, labels: seq<nat>)
    requires LabelsOrdered(d) && ValidLabels(d, labels)
    requires forall i :: 0 <= i < |labels| ==> labels[i] <= |d|
    ensures Covered(d, labels) == set i | 0 <= i < |labels| :: labels[i]
    decreases |labels|
  {
    if |labels| > 0 {
      var init := labels[..|labels| - 1];
      AllLeavesCover(d, init);
      assert forall i :: 0 <= i < |init| ==> init[i] == labels[i];
      assert (set i | 0 <= i < |labels| :: labels[i])
          == (set i | 0 <= i < |init| :: init[i]) + {labels[|labels| - 1]};
    }
  }

  lemma {:induction false} ImageCardinality(labels: seq<nat>)
    ensures |set i | 0 <= i < |labels| :: labels[i]| <= |labels|
    decreases |labels|
  {
    if |labels| > 0 {
      var init := labels[..|labels| - 1];
      ImageCardinality(init);
      assert (set i | 0 <= i < |labels| :: labels[i])
          == (set i | 0 <= i < |init| :: init[i]) + {labels[|labels| - 1]};
    }
  }

  // ---------------------------------------------------------------------------
  // The expansion loop.

  datatype RootError = LeafExpanded(node: nat)

  /** The largest label and the index of its first occurrence. */
  method MaxLabel(labels: seq<nat>) returns (m: nat, at: nat)
    requires |labels| > 0
    ensures at < |labels| && labels[at] == m
    ensures forall i :: 0 <= i < |labels| ==> labels[i] <= m
    ensures forall i :: 0 <= i < at ==> labels[i] != m
  {
    m := labels[0];
    var i := 1;
    while i < |labels|
      invariant 1 <= i <= |labels|
      invariant m in labels[..i]
      invariant forall j :: 0 <= j < i ==> labels[j] <= m
    {
      if labels[i] > m {
        m := labels[i];
      }
      i := i + 1;
    }
    at := 0;
    while labels[at] != m
      invariant 0 <= at < |labels|
      invariant m in labels[at..]
      invariant forall j :: 0 <= j < at ==> labels[j] != m
      decreases |labels| - at
    {
      at := at + 1;
    }
  }

  /** The labels split the observations under the root into disjoint non-empty parts. */
  ghost predicate Partition(d: Dendrogram, labels: seq<nat>)
    requires LabelsOrdered(d)
  {
    && ValidLabels(d, labels)
    && Disjoint(d, labels)
    && Covered(d, labels) == Leaves(d, RootLabel(d))
  }

  /** The two sides of the last merge partition the root. */
  lemma FirstSplit(d: Dendrogram)
    requires WellFormed(d)
    ensures var step := d[|d| - 1];
            Partition(d, [step.cluster1, step.cluster2])
  {
    var step := d[|d| - 1];
    assert SidesDisjoint(d, |d| - 1);
    assert Leaves(d, RootLabel(d)) == Leaves(d, step.cluster1) + Leaves(d, step.cluster2);
    CoveredAppend(d, [step.cluster1], [step.cluster2]);
    CoveredSingle(d, step.cluster1);
    CoveredSingle(d, step.cluster2);
  }

  /** When every label of a partition is a leaf, there are at least n_1 + 1 labels. */
  lemma LeafPartitionSize(d: Dendrogram, labels: seq<nat>)
    requires WellFormed(d) && Partition(d, labels)
    requires forall i :: 0 <= i < |labels| ==> labels[i] <= |d|
    ensures |labels| >= |d| + 1
  {
    AllLeavesCover(d, labels);
    ImageCardinality(labels);
  }

  /** A partition has at most n_1 + 1 labels. */
  lemma PartitionSize(d: Dendrogram, labels: seq<nat>)
    requires WellFormed(d) && Partition(d, labels)
    ensures |labels| <= |d| + 1
  {
    DisjointCoverCount(d, labels);
  }

  /**
   * The first k cluster roots. k = 0 gives none and k = 1 the root. Otherwise
   * the list starts with the two sides of the last merge and its largest label
   * is replaced by the two sides of the merge that created it until the list
   * holds k labels; expanding a leaf is an error (a `usize` underflow in
   * the label arithmetic).
   */
  method RootLabels(d: Dendrogram, k: nat) returns (r: Result<seq<nat>, RootError>)
    requires WellFormed(d)
    ensures r.Ok? <==> k <= |d| + 1
    ensures r.Ok? ==> |r.value| == k
    ensures r.Ok? && k > 0 ==> Partition(d, r.value)
    ensures r.Ok? ==> TopCut(d, r.value)
    ensures k == 1 ==> r == Ok([RootLabel(d)])
  {
    var n1 := |d|;
    if k == 1 {
      CoveredSingle(d, n1 + n1);
      return Ok([n1 + n1]);
    }
    var labels: seq<nat> := [];
    while |labels| < k
      invariant |labels| > 0 ==> Partition(d, labels)
      invariant TopCut(d, labels)
      invariant |labels| <= k
      decreases k - |labels|
    {
      if |labels| == 0 {
        // k == 0 never enters the loop and k == 1 returned above.
        assert k >= 2;
        var step := d[n1 - 1];
        assert step.cluster1 < StepLabel(d, n1 - 1) && step.cluster2 < StepLabel(d, n1 - 1);
        labels := [step.cluster1, step.cluster2];
        FirstSplit(d);
      } else {
        var top, at := MaxLabel(labels);
        if !IsInternal(d, top) {
          LeafPartitionSize(d, labels);
          return Err(LeafExpanded(top));
        }
        var step := d[top - n1 - 1];
        var rest := labels[..at] + labels[at + 1..];
        var next := rest + [step.cluster1, step.cluster2];
        ExpandPartition(d, labels, at, rest, next);
        ExpandTopCut(d, labels, at, rest, next);
        labels := next;
      }
    }
    if |labels| > 0 {
      PartitionSize(d, labels);
    }
    return Ok(labels);
  }

  /**
   * The labels of the cut made by the k - 1 highest merges: with k labels,
   * every label is one of the 2 n_1 + 2 - k lowest. A partition of the
   * observations with this bound is unique, so the largest-first expansion
   * is pinned down, not merely some partition of size k.
   */
  predicate TopCut(d: Dendrogram, labels: seq<nat>)
  {
    forall i :: 0 <= i < |labels| ==> labels[i] + |labels| <= 2 * |d| + 1
  }

  /** The labels of a partition are pairwise distinct, since each covers at least one observation. */
  lemma PartitionDistinct(d: Dendrogram, labels: seq<nat>)
    requires WellFormed(d) && Partition(d, labels)
    ensures forall i, j :: 0 <= i < j < |labels| ==> labels[i] != labels[j]
  {
    forall i, j | 0 <= i < j < |labels| ensures labels[i] != labels[j] {
      LeavesNonEmpty(d, labels[i]);
      assert Leaves(d, labels[i]) !! Leaves(d, labels[j]);
    }
  }

  /**
   * Expanding the largest label keeps the cut at the top: the other labels
   * are strictly below it and its two sides were created before it.
   */
  lemma ExpandTopCut(d: Dendrogram, labels: seq<nat>, at: nat, rest: seq<nat>, next: seq<nat>)
    requires WellFormed(d) && Partition(d, labels) && TopCut(d, labels)
    requires at < |labels| && labels[at] > |d|
    requires forall i :: 0 <= i < |labels| ==> labels[i] <= labels[at]
    requires rest == labels[..at] + labels[at + 1..]
    requires next == rest + [d[labels[at] - |d| - 1].cluster1, d[labels[at] - |d| - 1].cluster2]
    ensures TopCut(d, next)
  {
    PartitionDistinct(d, labels);
    RemoveAt(labels, at, rest);
    var i0 := labels[at] - |d| - 1;
    assert d[i0].cluster1 < StepLabel(d, i0) && d[i0].cluster2 < StepLabel(d, i0);
    forall i | 0 <= i < |next| ensures next[i] + |next| <= 2 * |d| + 1 {
      if i < |rest| {
        var i' := if i < at then i else i + 1;
        assert next[i] == labels[i'];
        assert labels[i'] != labels[at];
      }
    }
  }

  /** A sequence is its prefix before `at`, the element at `at`, and the rest. */
  lemma SplitAt(s: seq<nat>, at: nat)
    requires at < |s|
    ensures s == s[..at] + [s[at]] + s[at + 1..]
  {
  }

  /** Dropping the element at `at` shifts every later element down by one. */
  lemma RemoveAt(s: seq<nat>, at: nat, rest: seq<nat>)
    requires at < |s| && rest == s[..at] + s[at + 1..]
    ensures |rest| == |s| - 1
    ensures forall i :: 0 <= i < |rest| ==> rest[i] == s[if i < at then i else i + 1]
  {
  }

  /** Expanding an internal label of a partition into the two sides of its merge gives a partition. */
  lemma ExpandPartition(d: Dendrogram, labels: seq<nat>, at: nat, rest: seq<nat>, next: seq<nat>)
    requires WellFormed(d) && Partition(d, labels)
    requires at < |labels| && labels[at] > |d|
    requires rest == labels[..at] + labels[at + 1..]
    requires next == rest + [d[labels[at] - |d| - 1].cluster1, d[labels[at] - |d| - 1].cluster2]
    ensures Partition(d, next)
  {
    assert SidesDisjoint(d, labels[at] - |d| - 1);
    ExpandDisjoint(d, labels, at, rest);
    ExpandCovered(d, labels, at, rest);
  }

  /** Removing an internal label and appending the two sides of its merge keeps the labels disjoint. */
  lemma ExpandDisjoint(d: Dendrogram, labels: seq<nat>, at: nat, rest: seq<nat>)
    requires LabelsOrdered(d) && ValidLabels(d, labels) && Disjoint(d, labels)
    requires at < |labels| && |d| < labels[at] <= RootLabel(d)
    requires SidesDisjoint(d, labels[at] - |d| - 1)
    requires rest == labels[..at] + labels[at + 1..]
    ensures var step := d[labels[at] - |d| - 1];
            && ValidLabels(d, rest + [step.cluster1, step.cluster2])
            && Disjoint(d, rest + [step.cluster1, step.cluster2])
  {
    var node := labels[at];
    var step := d[node - |d| - 1];
    var c1, c2 := step.cluster1, step.cluster2;
    var next := rest + [c1, c2];
    assert Leaves(d, node) == Leaves(d, c1) + Leaves(d, c2);
    RemoveAt(labels, at, rest);
    forall i, j | 0 <= i < j < |next| ensures Leaves(d, next[i]) !! Leaves(d, next[j]) {
      if j < |rest| {
        var i' := if i < at then i else i + 1;
        var j' := if j < at then j else j + 1;
        assert Leaves(d, labels[i']) !! Leaves(d, labels[j']);
      } else if i < |rest| {
        var i' := if i < at then i else i + 1;
        if i' < at {
          assert Leaves(d, labels[i']) !! Leaves(d, labels[at]);
        } else {
          assert Leaves(d, labels[at]) !! Leaves(d, labels[i']);
        }
      }
    }
  }

  /** The labels cover what the labels before `at`, the label at `at` and the labels after it cover. */
  lemma CoveredSplit(d: Dendrogram, labels: seq<nat>, at: nat)
    requires LabelsOrdered(d) && ValidLabels(d, labels) && at < |labels|
    ensures ValidLabels(d, labels[..at]) && ValidLabels(d, labels[at + 1..])
    ensures Covered(d, labels) == Covered(d, labels[..at]) + Leaves(d, labels[at]) + Covered(d, labels[at + 1..])
  {
    var before, after := labels[..at], labels[at + 1..];
    SplitAt(labels, at);
    CoveredSingle(d, labels[at]);
    CoveredAppend(d, before, [labels[at]]);
    CoveredAppend(d, before + [labels[at]], after);
  }

  /** Appending two labels adds the observations under both. */
  lemma CoveredPair(d: Dendrogram, rest: seq<nat>, c1: nat, c2: nat)
    requires LabelsOrdered(d) && ValidLabels(d, rest) && c1 <= RootLabel(d) && c2 <= RootLabel(d)
    ensures ValidLabels(d, rest + [c1, c2])
    ensures Covered(d, rest + [c1, c2]) == Covered(d, rest) + Leaves(d, c1) + Leaves(d, c2)
  {
    CoveredAppend(d, [c1], [c2]);
    CoveredSingle(d, c1);
    CoveredSingle(d, c2);
    assert [c1] + [c2] == [c1, c2];
    CoveredAppend(d, rest, [c1, c2]);
  }

  /** Removing an internal label and appending the two sides of its merge covers the same observations. */
  lemma ExpandCovered(d: Dendrogram, labels: seq<nat>, at: nat, rest: seq<nat>)
    requires LabelsOrdered(d) && ValidLabels(d, labels)
    requires at < |labels| && |d| < labels[at] <= RootLabel(d)
    requires rest == labels[..at] + labels[at + 1..]
    ensures var step := d[labels[at] - |d| - 1];
            && ValidLabels(d, rest + [step.cluster1, step.cluster2])
            && Covered(d, rest + [step.cluster1, step.cluster2]) == Covered(d, labels)
  {
    var step := d[labels[at] - |d| - 1];
    CoveredSplit(d, labels, at);
    CoveredAppend(d, labels[..at], labels[at + 1..]);
    CoveredPair(d, rest, step.cluster1, step.cluster2);
  }
}
