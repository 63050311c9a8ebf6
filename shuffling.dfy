/** Reordering the records (`shuffle_dataset`). */
module Shuffling {
  import opened Wrappers
  import opened Seqs
  import opened Datasets

  /** `perm` lists each of `0 .. n - 1` exactly once: a rearrangement of
      `arange(n)`. */
  predicate IsPermutation(perm: seq<nat>, n: nat)
  {
    multiset(perm) == multiset(Range(n))
  }

  /** A permutation of `0 .. n - 1` has length `n`, lists only positions below
      `n` and lists every one of them. */
  lemma PermutationFacts(perm: seq<nat>, n: nat)
    requires IsPermutation(perm, n)
    ensures |perm| == n
    ensures forall k :: 0 <= k < |perm| ==> perm[k] < n
    ensures forall i :: 0 <= i < n ==> i in perm
  {
    assert |perm| == |multiset(perm)| == |multiset(Range(n))| == n;
    forall k | 0 <= k < |perm| ensures perm[k] < n {
      assert perm[k] in multiset(Range(n));
    }
    forall i | 0 <= i < n ensures i in perm {
      assert Range(n)[i] == i;
      assert i in multiset(perm);
    }
  }

  /** `shuffle_dataset` (tools.py:316-344), with the random order given as
      `perm`: record `k` of the result is record `perm[k]` of `d`, the name
      tables are those of `d`, and the multiset of record tuples is unchanged. */
  method ShuffleDataset(d: Dataset, perm: seq<nat>) returns (r: Dataset)
    requires WellFormed(d)
    requires IsPermutation(perm, |d.target1|)
    ensures WellFormed(r) && |r.files| == |d.files| == |perm|
    ensures forall k :: 0 <= k < |perm| ==> perm[k] < |d.files| && RecordAt(r, k) == RecordAt(d, perm[k])
    ensures r.target1Names == d.target1Names && r.target2Names == d.target2Names
    ensures multiset(Records(r)) == multiset(Records(d))
    ensures Valid(d) ==> Valid(r)
  {
    PermutationFacts(perm, |d.target1|);
    var files, data, target1, target2 := [], [], [], [];
    var k := 0;
    while k < |perm|
      invariant 0 <= k <= |perm|
      invariant |files| == |data| == |target1| == |target2| == k
      invariant forall j :: 0 <= j < k ==>
                  && files[j] == d.files[perm[j]]
                  && data[j] == d.data[perm[j]]
                  && target1[j] == d.target1[perm[j]]
                  && target2[j] == d.target2[perm[j]]
    {
      var index := perm[k];
      files := files + [d.files[index]];
      data := data + [d.data[index]];
      target1 := target1 + [d.target1[index]];
      target2 := target2 + [d.target2[index]];
      k := k + 1;
    }
    r := Dataset(files, data, target1, target2, d.target1Names, d.target2Names);
    assert Records(r) == Select(Records(d), perm);
    SelectMultiset(Records(d), perm, Range(|d.files|));
    assert Select(Records(d), Range(|d.files|)) == Records(d);
    if Valid(d) {
      forall j | 0 <= j < |r.target1Names| ensures j in r.target1 {
        var i := IndexOf(d.target1, j);
        var p := IndexOf(perm, i);
        assert r.target1[p] == j;
      }
      forall j | 0 <= j < |r.target2Names| ensures Some(j) in r.target2 {
        var i := IndexOf(d.target2, Some(j));
        var p := IndexOf(perm, i);
        assert r.target2[p] == Some(j);
      }
    }
  }
}
