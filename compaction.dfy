/** Compaction of a label-name table (`cleanup_target_names`). */
module Compaction {
  import opened Seqs

  /** The distinct labels below `n` that occur in `targets`, in ascending order.
      This stands for `list(set(targets))`, whose order `tools.py` leaves to
      the set implementation; the model fixes it to ascending. */
  function UsedIndices(targets: seq<nat>, n: nat): (u: seq<nat>)
    ensures StrictlyIncreasing(u)
    ensures forall k :: 0 <= k < |u| ==> u[k] < n
    ensures forall j :: j in u <==> j < n && j in targets
  {
    if n == 0 then []
    else UsedIndices(targets, n - 1) + (if n - 1 in targets then [n - 1] else [])
  }

  /** Drops the names no target uses and renumbers the targets densely.
      Returns the new targets and the new name table. */
  function CleanupTargetNames(targets: seq<nat>, names: seq<string>): (r: (seq<nat>, seq<string>))
    requires forall i :: 0 <= i < |targets| ==> targets[i] < |names|
    ensures |r.0| == |targets|
    // every record keeps its label name
    ensures forall i :: 0 <= i < |targets| ==> r.0[i] < |r.1| && r.1[r.0[i]] == names[targets[i]]
    // one new slot per distinct old label, and no orphaned slot
    ensures |r.1| == |set t | t in targets|
    ensures forall j :: 0 <= j < |r.1| ==> j in r.0
    // renumbering is self-consistent in both directions
    ensures forall i, i' :: 0 <= i < |targets| && 0 <= i' < |targets| ==>
              (targets[i] == targets[i'] <==> r.0[i] == r.0[i'])
  {
    var unique := UsedIndices(targets, |names|);
    var newNames := Select(names, unique);
    var newTargets := Renumbered(targets, unique);
    Compacted(targets, names, newTargets, newNames);
    (newTargets, newNames)
  }

  /** Each target replaced by its position in `unique` (`unique.index(target)`). */
  function Renumbered(targets: seq<nat>, unique: seq<nat>): (r: seq<nat>)
    requires forall i :: 0 <= i < |targets| ==> targets[i] in unique
    ensures |r| == |targets|
    ensures forall i :: 0 <= i < |targets| ==> r[i] == IndexOf(unique, targets[i])
  {
    seq(|targets|, i requires 0 <= i < |targets| => IndexOf(unique, targets[i]))
  }

  /** The pair computed from the used labels has every property of
      `CleanupTargetNames`' result. */
  lemma Compacted(targets: seq<nat>, names: seq<string>, newTargets: seq<nat>, newNames: seq<string>)
    requires forall i :: 0 <= i < |targets| ==> targets[i] < |names|
    requires var unique := UsedIndices(targets, |names|);
      && |newNames| == |unique|
      && (forall k :: 0 <= k < |unique| ==> newNames[k] == names[unique[k]])
      && |newTargets| == |targets|
      && (forall i :: 0 <= i < |targets| ==> targets[i] in unique && newTargets[i] == IndexOf(unique, targets[i]))
    ensures forall i :: 0 <= i < |targets| ==> newTargets[i] < |newNames| && newNames[newTargets[i]] == names[targets[i]]
    ensures |newNames| == |set t | t in targets|
    ensures forall j :: 0 <= j < |newNames| ==> j in newTargets
    ensures forall i, i' :: 0 <= i < |targets| && 0 <= i' < |targets| ==>
              (targets[i] == targets[i'] <==> newTargets[i] == newTargets[i'])
  {
    var unique := UsedIndices(targets, |names|);
    CompactedCount(targets, |names|);
    RenumberingIsConsistent(targets, unique, newTargets);
    RenumberingHasNoOrphans(targets, unique, newTargets);
  }

  lemma CompactedCount(targets: seq<nat>, n: nat)
    requires forall i :: 0 <= i < |targets| ==> targets[i] < n
    ensures |UsedIndices(targets, n)| == |set t | t in targets|
  {
    var unique := UsedIndices(targets, n);
    IncreasingCardinality(unique);
    assert (set x | x in unique) == (set t | t in targets);
  }

  lemma RenumberingIsConsistent(targets: seq<nat>, unique: seq<nat>, newTargets: seq<nat>)
    requires forall i :: 0 <= i < |targets| ==> targets[i] in unique
    requires |newTargets| == |targets|
    requires forall i :: 0 <= i < |targets| ==> newTargets[i] == IndexOf(unique, targets[i])
    ensures forall i, i' :: 0 <= i < |targets| && 0 <= i' < |targets| ==>
              (targets[i] == targets[i'] <==> newTargets[i] == newTargets[i'])
  {
    forall i, i' | 0 <= i < |targets| && 0 <= i' < |targets| && newTargets[i] == newTargets[i']
      ensures targets[i] == targets[i']
    {
      assert unique[newTargets[i]] == targets[i];
    }
  }

  lemma RenumberingHasNoOrphans(targets: seq<nat>, unique: seq<nat>, newTargets: seq<nat>)
    requires forall j :: j in unique ==> j in targets
    requires forall i :: 0 <= i < |targets| ==> targets[i] in unique
    requires |newTargets| == |targets|
    requires forall i :: 0 <= i < |targets| ==> newTargets[i] == IndexOf(unique, targets[i])
    requires Distinct(unique)
    ensures forall j :: 0 <= j < |unique| ==> j in newTargets
  {
    forall j | 0 <= j < |unique| ensures j in newTargets {
      var i := IndexOf(targets, unique[j]);
      assert newTargets[i] == j;
    }
  }

  /** The renumbering keeps the relative order of the labels. */
  lemma CleanupKeepsOrder(targets: seq<nat>, names: seq<string>, i: nat, i': nat)
    requires forall k :: 0 <= k < |targets| ==> targets[k] < |names|
    requires i < |targets| && i' < |targets|
    ensures targets[i] < targets[i'] <==> CleanupTargetNames(targets, names).0[i] < CleanupTargetNames(targets, names).0[i']
  {
    var unique := UsedIndices(targets, |names|);
    var p, p' := IndexOf(unique, targets[i]), IndexOf(unique, targets[i']);
    assert unique[p] == targets[i] && unique[p'] == targets[i'];
  }

  /** A duplicate-free name table stays duplicate-free. */
  lemma CleanupKeepsDistinct(targets: seq<nat>, names: seq<string>)
    requires forall k :: 0 <= k < |targets| ==> targets[k] < |names|
    requires Distinct(names)
    ensures Distinct(CleanupTargetNames(targets, names).1)
  {
    var unique := UsedIndices(targets, |names|);
    var newNames := CleanupTargetNames(targets, names).1;
    forall k, k' | 0 <= k < k' < |newNames| ensures newNames[k] != newNames[k'] {
      assert newNames[k] == names[unique[k]] && newNames[k'] == names[unique[k']];
      assert unique[k] < unique[k'];
    }
  }

  /** When every slot below `n` is used, the used labels are exactly `0 .. n - 1`. */
  lemma {:induction false} UsedIndicesAll(targets: seq<nat>, n: nat)
    requires forall j :: 0 <= j < n ==> j in targets
    ensures UsedIndices(targets, n) == Range(n)
  {
    if n > 0 {
      UsedIndicesAll(targets, n - 1);
      assert Range(n) == Range(n - 1) + [n - 1];
    }
  }

  /** With no orphaned name, compaction changes nothing. */
  lemma CleanupWithoutOrphans(targets: seq<nat>, names: seq<string>)
    requires forall k :: 0 <= k < |targets| ==> targets[k] < |names|
    requires forall j :: 0 <= j < |names| ==> j in targets
    ensures CleanupTargetNames(targets, names) == (targets, names)
  {
    UsedIndicesAll(targets, |names|);
    var r := CleanupTargetNames(targets, names);
    assert r.0 == targets;
    assert r.1 == names;
  }
}
