/** Record removal followed by compaction of both name tables (`remove_indices`). */
module Removal {
  import opened Wrappers
  import opened Seqs
  import opened Datasets
  import opened Compaction

  /** The record positions below `n` not listed in `toRemove`, ascending. This
      stands for `list(set(range(n)) - set(toRemove))`, whose order `tools.py`
      leaves to the set implementation; the model fixes it to ascending. */
  function Kept(n: nat, toRemove: seq<int>): (keep: seq<nat>)
    ensures forall k :: 0 <= k < |keep| ==> keep[k] < n
    ensures forall i :: i in keep <==> 0 <= i < n && i !in toRemove
  {
    if n == 0 then []
    else Kept(n - 1, toRemove) + (if n - 1 in toRemove then [] else [n - 1])
  }

  /** The kept positions are in ascending order. */
  lemma {:induction false} KeptIncreasing(n: nat, toRemove: seq<int>)
    ensures StrictlyIncreasing(Kept(n, toRemove))
  {
    if n > 0 {
      KeptIncreasing(n - 1, toRemove);
    }
  }

  /** Only which positions below `n` are listed matters, not their order,
      repetitions or out-of-range entries. */
  lemma {:induction false} KeptByMembership(n: nat, a: seq<int>, b: seq<int>)
    requires forall i :: 0 <= i < n ==> (i in a <==> i in b)
    ensures Kept(n, a) == Kept(n, b)
  {
    if n > 0 {
      KeptByMembership(n - 1, a, b);
    }
  }

  /** Removal depends only on which in-range positions are listed. */
  lemma RemoveByMembership(d: Dataset, a: seq<int>, b: seq<int>)
    requires WellFormed(d)
    requires forall i :: 0 <= i < |d.files| ==> (i in a <==> i in b)
    ensures RemoveIndices(d, a) == RemoveIndices(d, b)
  {
    KeptByMembership(|d.files|, a, b);
  }

  /** The labels of a list with no absent entry. */
  function Present(t: seq<Option<nat>>): (r: seq<nat>)
    requires None !in t
    ensures |r| == |t| && forall k :: 0 <= k < |t| ==> t[k] == Some(r[k])
  {
    assert forall k :: 0 <= k < |t| ==> t[k] in t;
    assert forall k :: 0 <= k < |t| ==> t[k].Some?;
    seq(|t|, k requires 0 <= k < |t| => t[k].value)
  }

  /** Record `k` of `e` is record `keep[k]` of `d`: same file, same text, same
      label names, and there are as many records as positions kept. */
  predicate Retains(d: Dataset, keep: seq<nat>, e: Dataset)
    requires WellFormed(d)
    requires forall k :: 0 <= k < |keep| ==> keep[k] < |d.files|
  {
    && WellFormed(e)
    && |e.files| == |keep|
    && forall k :: 0 <= k < |keep| ==>
         && e.files[k] == d.files[keep[k]]
         && e.data[k] == d.data[keep[k]]
         && Label1(e, k) == Label1(d, keep[k])
         && Label2(e, k) == Label2(d, keep[k])
  }

  /** Two records of `e` share a label exactly when the records of `d` they come
      from do. */
  predicate SameGrouping(d: Dataset, keep: seq<nat>, e: Dataset)
    requires WellFormed(d) && WellFormed(e) && |e.files| == |keep|
    requires forall k :: 0 <= k < |keep| ==> keep[k] < |d.files|
  {
    && (forall k, k' :: 0 <= k < |keep| && 0 <= k' < |keep| ==>
          (e.target1[k] == e.target1[k'] <==> d.target1[keep[k]] == d.target1[keep[k']]))
    && (forall k, k' :: 0 <= k < |keep| && 0 <= k' < |keep| ==>
          (e.target2[k] == e.target2[k'] <==> d.target2[keep[k]] == d.target2[keep[k']]))
  }

  /** The dataset made of the records at `keep`, with both name tables compacted
      (tools.py:177-182). Compacting the second-level table fails as soon as a
      kept record has no second-level label. */
  function Retain(d: Dataset, keep: seq<nat>): (r: Result<Dataset>)
    requires WellFormed(d)
    requires forall k :: 0 <= k < |keep| ==> keep[k] < |d.files|
    ensures r.Ok? <==> forall k :: 0 <= k < |keep| ==> d.target2[keep[k]].Some?
    ensures r.Ok? ==> Retains(d, keep, r.value) && NoOrphans(r.value)
    ensures r.Ok? ==> SameGrouping(d, keep, r.value)
  {
    var t2 := Select(d.target2, keep);
    if None in t2 then
      Err(AbsentLabelIndexed)
    else
      assert forall k :: 0 <= k < |keep| ==> t2[k] in t2;
      assert forall k :: 0 <= k < |keep| ==> t2[k].Some?;
      RetainedFacts(d, keep);
      Ok(Retained(d, keep))
  }

  /** The successful result of `Retain`. */
  function Retained(d: Dataset, keep: seq<nat>): Dataset
    requires WellFormed(d)
    requires forall k :: 0 <= k < |keep| ==> keep[k] < |d.files|
    requires None !in Select(d.target2, keep)
  {
    var c1 := CleanupTargetNames(Select(d.target1, keep), d.target1Names);
    var c2 := CleanupTargetNames(Present(Select(d.target2, keep)), d.target2Names);
    Dataset(Select(d.files, keep), Select(d.data, keep), c1.0, Somes(c2.0), c1.1, c2.1)
  }

  /** Every label wrapped as present. */
  function Somes(t: seq<nat>): (r: seq<Option<nat>>)
    ensures |r| == |t| && forall k :: 0 <= k < |t| ==> r[k] == Some(t[k])
  {
    seq(|t|, k requires 0 <= k < |t| => Some(t[k]))
  }

  lemma RetainedFacts(d: Dataset, keep: seq<nat>)
    requires WellFormed(d)
    requires forall k :: 0 <= k < |keep| ==> keep[k] < |d.files|
    requires None !in Select(d.target2, keep)
    ensures Retains(d, keep, Retained(d, keep))
    ensures NoOrphans(Retained(d, keep))
    ensures SameGrouping(d, keep, Retained(d, keep))
  {
    var e := Retained(d, keep);
    var t2 := Select(d.target2, keep);
    var c2 := CleanupTargetNames(Present(t2), d.target2Names);
    assert e.target2 == Somes(c2.0);
    forall j | 0 <= j < |e.target2Names| ensures Some(j) in e.target2 {
      var k := IndexOf(c2.0, j);
      assert e.target2[k] == Some(j);
    }
  }

  /** `remove_indices` (tools.py:158-183): keeps exactly the in-range records not
      listed, in ascending order, and compacts both name tables. */
  function RemoveIndices(d: Dataset, toRemove: seq<int>): (r: Result<Dataset>)
    requires WellFormed(d)
    ensures r.Ok? <==> forall i :: 0 <= i < |d.files| && i !in toRemove ==> d.target2[i].Some?
    ensures r.Ok? ==> Retains(d, Kept(|d.files|, toRemove), r.value) && NoOrphans(r.value)
    ensures r.Ok? ==> SameGrouping(d, Kept(|d.files|, toRemove), r.value)
  {
    var keep := Kept(|d.files|, toRemove);
    assert forall i :: 0 <= i < |d.files| && i !in toRemove ==> i in keep;
    Retain(d, keep)
  }

  /** Removal keeps the full dataset invariant. */
  lemma RemoveIndicesKeepsValid(d: Dataset, toRemove: seq<int>)
    requires Valid(d)
    requires RemoveIndices(d, toRemove).Ok?
    ensures Valid(RemoveIndices(d, toRemove).value)
  {
    var keep := Kept(|d.files|, toRemove);
    assert RemoveIndices(d, toRemove) == Ok(Retained(d, keep));
    RetainedKeepsValid(d, keep);
  }

  /** The records at `keep`, with both tables compacted, form a valid dataset. */
  lemma RetainedKeepsValid(d: Dataset, keep: seq<nat>)
    requires Valid(d)
    requires forall k :: 0 <= k < |keep| ==> keep[k] < |d.files|
    requires None !in Select(d.target2, keep)
    ensures Valid(Retained(d, keep))
  {
    var e := Retained(d, keep);
    var t1, t2 := Select(d.target1, keep), Present(Select(d.target2, keep));
    RetainedFacts(d, keep);
    CleanupKeepsDistinct(t1, d.target1Names);
    CleanupKeepsDistinct(t2, d.target2Names);
    assert e.target1Names == CleanupTargetNames(t1, d.target1Names).1;
    assert e.target2Names == CleanupTargetNames(t2, d.target2Names).1;
  }

  /** Removing nothing from a valid dataset whose records all have both labels
      returns the dataset unchanged: nothing is orphaned, so nothing is renumbered. */
  lemma RemoveNothing(d: Dataset)
    requires Valid(d)
    requires None !in d.target2
    ensures RemoveIndices(d, []) == Ok(d)
  {
    var n := |d.files|;
    KeptAll(n);
    SelectAll(d.target1);
    SelectAll(d.target2);
    SelectAll(d.files);
    SelectAll(d.data);
    RetainAllNames(d);
    assert Retained(d, Range(n)) == d;
  }

  /** Selecting every position gives the list back. */
  lemma SelectAll<T>(s: seq<T>)
    ensures Select(s, Range(|s|)) == s
  {
  }

  lemma RetainAllNames(d: Dataset)
    requires Valid(d)
    requires None !in d.target2
    ensures CleanupTargetNames(d.target1, d.target1Names) == (d.target1, d.target1Names)
    ensures Somes(CleanupTargetNames(Present(d.target2), d.target2Names).0) == d.target2
    ensures CleanupTargetNames(Present(d.target2), d.target2Names).1 == d.target2Names
  {
    var t2 := Present(d.target2);
    forall j | 0 <= j < |d.target2Names| ensures j in t2 {
      var i := IndexOf(d.target2, Some(j));
      assert t2[i] == j;
    }
    CleanupWithoutOrphans(d.target1, d.target1Names);
    CleanupWithoutOrphans(t2, d.target2Names);
  }

  lemma {:induction false} KeptAll(n: nat)
    ensures Kept(n, []) == Range(n)
  {
    if n > 0 {
      KeptAll(n - 1);
      assert Range(n) == Range(n - 1) + [n - 1];
    }
  }
}
