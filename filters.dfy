/** The filters built on record removal: `filter_incomplete_subjects`,
    `filter_small_subjects` and `chop_large_subjects`. */
module Filters {
  import opened Wrappers
  import opened Seqs
  import opened Datasets
  import opened Removal
  import opened Groups

  /** The positions below `n` whose second-level label is absent, ascending
      (the comprehension at tools.py:225). */
  function AbsentIndices(t2: seq<Option<nat>>, n: nat): (r: seq<nat>)
    requires n <= |t2|
    ensures forall i :: i in r <==> 0 <= i < n && t2[i].None?
  {
    if n == 0 then []
    else AbsentIndices(t2, n - 1) + (if t2[n - 1].None? then [n - 1] else [])
  }

  /** `filter_incomplete_subjects` (tools.py:211-226): keeps exactly the records
      that have a second-level label, and never fails. */
  function FilterIncompleteSubjects(d: Dataset): (r: Result<Dataset>)
    requires WellFormed(d)
    ensures r.Ok?
    ensures forall k :: 0 <= k < |r.value.target2| ==> r.value.target2[k].Some?
    ensures var keep := Kept(|d.files|, AbsentIndices(d.target2, |d.files|));
            && (forall i :: i in keep <==> 0 <= i < |d.files| && d.target2[i].Some?)
            && Retains(d, keep, r.value)
    ensures NoOrphans(r.value)
  {
    RemoveIndices(d, AbsentIndices(d.target2, |d.target2|))
  }

  /** The positions below `n` whose second-level group is smaller than
      `minSupport`, ascending. */
  function SmallIndices(t2: seq<Option<nat>>, minSupport: int, n: nat): (r: seq<nat>)
    requires n <= |t2|
    ensures forall i :: i in r <==> 0 <= i < n && GroupSize(t2, t2[i]) < minSupport
  {
    if n == 0 then []
    else SmallIndices(t2, minSupport, n - 1) + (if GroupSize(t2, t2[n - 1]) < minSupport then [n - 1] else [])
  }

  /** `filter_small_subjects` (tools.py:229-255): removes every record whose
      second-level group has fewer than `minSupport` members. */
  method FilterSmallSubjects(d: Dataset, minSupport: int) returns (r: Result<Dataset>)
    requires WellFormed(d)
    ensures r == RemoveIndices(d, SmallIndices(d.target2, minSupport, |d.target2|))
  {
    var indices := SmallSubjectIndices(d.target2, minSupport);
    RemoveByMembership(d, indices, SmallIndices(d.target2, minSupport, |d.target2|));
    r := RemoveIndices(d, indices);
  }

  /** The grouping and collecting loops of `filter_small_subjects`
      (tools.py:245-254): the positions of every group with fewer than
      `minSupport` members. */
  method SmallSubjectIndices(t2: seq<Option<nat>>, minSupport: int) returns (indices: seq<int>)
    ensures forall i :: i in indices <==> 0 <= i < |t2| && GroupSize(t2, t2[i]) < minSupport
  {
    var support, order := Support(t2);
    indices := [];
    var k := 0;
    while k < |order|
      invariant 0 <= k <= |order|
      invariant indices == SmallDropped(t2, minSupport, order[..k])
    {
      var target := order[k];
      var members := support[target];
      var dropped: seq<nat> := [];
      if |members| < minSupport {
        dropped := members;
      }
      assert order[..k + 1][..k] == order[..k];
      indices := indices + dropped;
      k := k + 1;
    }
    assert order[..k] == order;
    SmallDroppedMembers(t2, minSupport, order);
  }

  /** The members of group `v`, when it has fewer than `minSupport` of them. */
  function SmallGroup(t2: seq<Option<nat>>, minSupport: int, v: Option<nat>): seq<nat>
  {
    var g := Group(t2, v, |t2|);
    if |g| < minSupport then g else []
  }

  /** What the small-group loop has collected once it has handled the labels
      `seen`, in that order. */
  function SmallDropped(t2: seq<Option<nat>>, minSupport: int, seen: seq<Option<nat>>): seq<nat>
  {
    if seen == [] then []
    else SmallDropped(t2, minSupport, seen[..|seen| - 1]) + SmallGroup(t2, minSupport, seen[|seen| - 1])
  }

  /** The collected positions are exactly the records of a small group whose
      label was handled. */
  lemma {:induction false} SmallDroppedMembers(t2: seq<Option<nat>>, minSupport: int, seen: seq<Option<nat>>)
    ensures forall i :: i in SmallDropped(t2, minSupport, seen) <==>
              0 <= i < |t2| && t2[i] in seen && GroupSize(t2, t2[i]) < minSupport
  {
    if seen != [] {
      var v := seen[|seen| - 1];
      SmallDroppedMembers(t2, minSupport, seen[..|seen| - 1]);
      SmallGroupMembers(t2, minSupport, v);
      assert seen == seen[..|seen| - 1] + [v];
    }
  }

  /** A small group is dropped whole; a large one not at all. */
  lemma SmallGroupMembers(t2: seq<Option<nat>>, minSupport: int, v: Option<nat>)
    ensures forall i :: i in SmallGroup(t2, minSupport, v) <==>
              0 <= i < |t2| && t2[i] == v && GroupSize(t2, v) < minSupport
  {
    GroupFacts(t2, v, |t2|);
  }

  /** Where Python's slice `s[m:]` starts in a list of length `len`. */
  function SliceStart(m: int, len: nat): (start: nat)
    ensures start <= len
  {
    if m >= 0 then (if m <= len then m else len)
    else if len + m >= 0 then len + m else 0
  }

  /** Record `i` is dropped by `chop_large_subjects`: its group has more than
      `maxDocuments` members and `i` is at or after slice start `maxDocuments`
      in the group's list. */
  predicate Chopped(t2: seq<Option<nat>>, maxDocuments: int, i: nat)
    requires i < |t2|
  {
    var size := GroupSize(t2, t2[i]);
    size > maxDocuments && Rank(t2, i) >= SliceStart(maxDocuments, size)
  }

  /** The positions below `n` that `chop_large_subjects` drops, ascending. */
  function ChopIndices(t2: seq<Option<nat>>, maxDocuments: int, n: nat): seq<nat>
    requires n <= |t2|
  {
    if n == 0 then []
    else
      ChopIndices(t2, maxDocuments, n - 1) + (if Chopped(t2, maxDocuments, n - 1) then [n - 1] else [])
  }

  /** `ChopIndices` lists exactly the dropped records below `n`. */
  lemma {:induction false} ChopIndicesMembers(t2: seq<Option<nat>>, maxDocuments: int, n: nat)
    requires n <= |t2|
    ensures forall i :: i in ChopIndices(t2, maxDocuments, n) <==> 0 <= i < n && Chopped(t2, maxDocuments, i)
  {
    if n > 0 {
      ChopIndicesMembers(t2, maxDocuments, n - 1);
    }
  }

  /** `chop_large_subjects` (tools.py:258-284): in every second-level group with
      more than `maxDocuments` members, drops the members from slice position
      `maxDocuments` on. */
  method ChopLargeSubjects(d: Dataset, maxDocuments: int) returns (r: Result<Dataset>)
    requires WellFormed(d)
    ensures r == RemoveIndices(d, ChopIndices(d.target2, maxDocuments, |d.target2|))
  {
    var indices := ChopSubjectIndices(d.target2, maxDocuments);
    ChopIndicesMembers(d.target2, maxDocuments, |d.target2|);
    RemoveByMembership(d, indices, ChopIndices(d.target2, maxDocuments, |d.target2|));
    r := RemoveIndices(d, indices);
  }

  /** The grouping and collecting loops of `chop_large_subjects`
      (tools.py:274-283): the positions every group with more than
      `maxDocuments` members has from slice start `maxDocuments` on. */
  method ChopSubjectIndices(t2: seq<Option<nat>>, maxDocuments: int) returns (indices: seq<int>)
    ensures forall i :: i in indices <==> 0 <= i < |t2| && Chopped(t2, maxDocuments, i)
  {
    var support, order := Support(t2);
    indices := [];
    var k := 0;
    while k < |order|
      invariant 0 <= k <= |order|
      invariant indices == ChoppedDropped(t2, maxDocuments, order[..k])
    {
      var target := order[k];
      var members := support[target];
      var dropped: seq<nat> := [];
      if |members| > maxDocuments {
        dropped := members[SliceStart(maxDocuments, |members|)..];
      }
      assert order[..k + 1][..k] == order[..k];
      indices := indices + dropped;
      k := k + 1;
    }
    assert order[..k] == order;
    ChoppedDroppedMembers(t2, maxDocuments, order);
  }

  /** The members of group `v` from slice start `maxDocuments` on, when it has
      more than `maxDocuments` of them. */
  function ChoppedGroup(t2: seq<Option<nat>>, maxDocuments: int, v: Option<nat>): seq<nat>
  {
    var g := Group(t2, v, |t2|);
    if |g| > maxDocuments then g[SliceStart(maxDocuments, |g|)..] else []
  }

  /** What the chopping loop has collected once it has handled the labels
      `seen`, in that order. */
  function ChoppedDropped(t2: seq<Option<nat>>, maxDocuments: int, seen: seq<Option<nat>>): seq<nat>
  {
    if seen == [] then []
    else ChoppedDropped(t2, maxDocuments, seen[..|seen| - 1]) + ChoppedGroup(t2, maxDocuments, seen[|seen| - 1])
  }

  /** The collected positions are exactly the dropped records whose label was
      handled. */
  lemma {:induction false} ChoppedDroppedMembers(t2: seq<Option<nat>>, maxDocuments: int, seen: seq<Option<nat>>)
    ensures forall i :: i in ChoppedDropped(t2, maxDocuments, seen) <==>
              0 <= i < |t2| && t2[i] in seen && Chopped(t2, maxDocuments, i)
  {
    if seen != [] {
      var v := seen[|seen| - 1];
      ChoppedDroppedMembers(t2, maxDocuments, seen[..|seen| - 1]);
      ChoppedGroupMembers(t2, maxDocuments, v);
      assert seen == seen[..|seen| - 1] + [v];
    }
  }

  /** The slice `chop_large_subjects` takes from one group's list holds exactly
      the group's members that are dropped. */
  lemma ChoppedGroupMembers(t2: seq<Option<nat>>, maxDocuments: int, v: Option<nat>)
    ensures forall i :: i in ChoppedGroup(t2, maxDocuments, v) <==>
              0 <= i < |t2| && t2[i] == v && Chopped(t2, maxDocuments, i)
  {
    var g := Group(t2, v, |t2|);
    GroupFacts(t2, v, |t2|);
    if |g| > maxDocuments {
      ChoppedMembers(t2, v, SliceStart(maxDocuments, |g|));
    }
  }

  /** How many members a group of `size` keeps under the cap `m`: the first
      `m` of them for a cap of zero or more, all but the last `-m` of them
      for a negative cap. */
  function Quota(size: nat, m: int): (q: nat)
    ensures q <= size
  {
    if m >= 0 then Min(size, m) else Max(size + m, 0)
  }

  /** A record is dropped exactly when its group already has `Quota` members
      before it: for a cap of zero or more, when at least `m` members of its
      group precede it; for a negative cap, when it is among the last `-m`
      members of its group. */
  lemma ChoppedRank(t2: seq<Option<nat>>, m: int, i: nat)
    requires i < |t2|
    ensures Rank(t2, i) < GroupSize(t2, t2[i])
    ensures Chopped(t2, m, i) <==> Rank(t2, i) >= Quota(GroupSize(t2, t2[i]), m)
    ensures 0 <= m ==> (Chopped(t2, m, i) <==> Rank(t2, i) >= m)
    ensures m < 0 ==> (Chopped(t2, m, i) <==> Rank(t2, i) >= GroupSize(t2, t2[i]) + m)
  {
    RankBelowSize(t2, i);
  }

  function Min(a: int, b: int): int
  {
    if a <= b then a else b
  }

  function Max(a: int, b: int): int
  {
    if a >= b then a else b
  }

  /** How many records below `n` have second-level label `v` and are not listed
      in `toRemove`. */
  function KeptCount(t2: seq<Option<nat>>, toRemove: seq<int>, v: Option<nat>, n: nat): nat
    requires n <= |t2|
  {
    if n == 0 then 0
    else KeptCount(t2, toRemove, v, n - 1) + (if n - 1 !in toRemove && t2[n - 1] == v then 1 else 0)
  }

  /** The second-level labels of the records below `n` not listed in `toRemove`. */
  function KeptLabels(t2: seq<Option<nat>>, toRemove: seq<int>, n: nat): seq<Option<nat>>
    requires n <= |t2|
  {
    if n == 0 then []
    else KeptLabels(t2, toRemove, n - 1) + (if n - 1 in toRemove then [] else [t2[n - 1]])
  }

  /** `KeptLabels` are the labels at the kept positions. */
  lemma {:induction false} KeptLabelsSelect(t2: seq<Option<nat>>, toRemove: seq<int>, n: nat)
    requires n <= |t2|
    ensures Select(t2, Kept(n, toRemove)) == KeptLabels(t2, toRemove, n)
  {
    if n > 0 {
      KeptLabelsSelect(t2, toRemove, n - 1);
      var k := Kept(n - 1, toRemove);
      if n - 1 !in toRemove {
        assert Kept(n, toRemove) == k + [n - 1];
        SelectSnoc(t2, k, n - 1);
      } else {
        assert Kept(n, toRemove) == k;
      }
    }
  }

  /** `KeptCount` counts `v` among the kept labels. */
  lemma {:induction false} KeptLabelsCount(t2: seq<Option<nat>>, toRemove: seq<int>, v: Option<nat>, n: nat)
    requires n <= |t2|
    ensures Count(KeptLabels(t2, toRemove, n), v, |KeptLabels(t2, toRemove, n)|) == KeptCount(t2, toRemove, v, n)
  {
    if n > 0 {
      KeptLabelsCount(t2, toRemove, v, n - 1);
      var l := KeptLabels(t2, toRemove, n - 1);
      if n - 1 !in toRemove {
        assert KeptLabels(t2, toRemove, n) == l + [t2[n - 1]];
        CountSnoc(l, t2[n - 1], v);
      } else {
        assert KeptLabels(t2, toRemove, n) == l;
      }
    }
  }

  /** `KeptCount` counts `v` among the kept records. */
  lemma KeptCountSelect(t2: seq<Option<nat>>, toRemove: seq<int>, v: Option<nat>, n: nat)
    requires n <= |t2|
    ensures Count(Select(t2, Kept(n, toRemove)), v, |Kept(n, toRemove)|) == KeptCount(t2, toRemove, v, n)
  {
    KeptLabelsSelect(t2, toRemove, n);
    KeptLabelsCount(t2, toRemove, v, n);
  }

  /** When no member of group `v` below `n` is listed for removal, all of the
      group is kept. */
  lemma {:induction false} KeptWholeGroup(t2: seq<Option<nat>>, toRemove: seq<int>, v: Option<nat>, n: nat)
    requires n <= |t2|
    requires forall j :: 0 <= j < n && t2[j] == v ==> j !in toRemove
    ensures KeptCount(t2, toRemove, v, n) == Count(t2, v, n)
  {
    if n > 0 {
      KeptWholeGroup(t2, toRemove, v, n - 1);
    }
  }

  /** When exactly the members of group `v` that follow `q` earlier members are
      listed for removal, `q` members of the group are kept, or all of them if
      the group is smaller. */
  lemma {:induction false} KeptGroupPrefix(t2: seq<Option<nat>>, toRemove: seq<int>, v: Option<nat>, q: nat, n: nat)
    requires n <= |t2|
    requires forall j :: 0 <= j < n && t2[j] == v ==> (j in toRemove <==> Count(t2, v, j) >= q)
    ensures KeptCount(t2, toRemove, v, n) == Min(Count(t2, v, n), q)
  {
    if n > 0 {
      KeptGroupPrefix(t2, toRemove, v, q, n - 1);
    }
  }

  /** A label that occurs has a first occurrence, of rank 0. */
  lemma FirstOfGroup(t2: seq<Option<nat>>, v: Option<nat>) returns (i: nat)
    requires GroupSize(t2, v) > 0
    ensures i < |t2| && t2[i] == v && Rank(t2, i) == 0
  {
    var g := Group(t2, v, |t2|);
    GroupFacts(t2, v, |t2|);
    i := g[0];
    GroupPosition(t2, |t2|, i);
  }

  /** In a successful removal, a kept record's second-level group is as large as
      the number of records that shared its label before and were not removed. */
  lemma ResultGroupSize(d: Dataset, toRemove: seq<int>, k: nat)
    requires WellFormed(d)
    requires RemoveIndices(d, toRemove).Ok?
    requires k < |Kept(|d.files|, toRemove)|
    ensures var keep := Kept(|d.files|, toRemove);
            var e := RemoveIndices(d, toRemove).value;
            GroupSize(e.target2, e.target2[k]) == KeptCount(d.target2, toRemove, d.target2[keep[k]], |d.files|)
  {
    var keep := Kept(|d.files|, toRemove);
    var e := RemoveIndices(d, toRemove).value;
    var sel := Select(d.target2, keep);
    SamePatternCount(e.target2, sel, k, |keep|);
    KeptCountSelect(d.target2, toRemove, d.target2[keep[k]], |d.files|);
  }

  /** What `filter_small_subjects` keeps: exactly the records whose group has at
      least `minSupport` members, in ascending order. It fails exactly when some
      absent second-level labels are kept, that is, when there are at least
      `minSupport` of them. */
  lemma FilterSmallSubjectsKeeps(d: Dataset, minSupport: int)
    requires WellFormed(d)
    ensures var toRemove := SmallIndices(d.target2, minSupport, |d.target2|);
            && (forall i :: i in Kept(|d.files|, toRemove) <==>
                  0 <= i < |d.files| && GroupSize(d.target2, d.target2[i]) >= minSupport)
            && (RemoveIndices(d, toRemove).Ok? <==>
                  GroupSize(d.target2, None) == 0 || GroupSize(d.target2, None) < minSupport)
  {
    var absent := GroupSize(d.target2, None);
    if absent > 0 && absent >= minSupport {
      var i := FirstOfGroup(d.target2, None);
    }
    forall i | 0 <= i < |d.files| && d.target2[i] == None
      ensures absent > 0
    {
      RankBelowSize(d.target2, i);
    }
  }

  /** After `filter_small_subjects`, every remaining second-level group is as
      large as it was, hence has at least `minSupport` members. */
  lemma FilterSmallSubjectsGroups(d: Dataset, minSupport: int, k: nat)
    requires WellFormed(d)
    requires RemoveIndices(d, SmallIndices(d.target2, minSupport, |d.target2|)).Ok?
    requires k < |RemoveIndices(d, SmallIndices(d.target2, minSupport, |d.target2|)).value.files|
    ensures var toRemove := SmallIndices(d.target2, minSupport, |d.target2|);
            var e := RemoveIndices(d, toRemove).value;
            var i := Kept(|d.files|, toRemove)[k];
            && GroupSize(e.target2, e.target2[k]) == GroupSize(d.target2, d.target2[i])
            && GroupSize(e.target2, e.target2[k]) >= minSupport
  {
    var toRemove := SmallIndices(d.target2, minSupport, |d.target2|);
    var keep := Kept(|d.files|, toRemove);
    ResultGroupSize(d, toRemove, k);
    KeptWholeGroup(d.target2, toRemove, d.target2[keep[k]], |d.files|);
  }

  /** What `chop_large_subjects` keeps: exactly the records preceded by fewer
      than `Quota` members of their group, which for a cap `m` of zero or more
      is all of a group of at most `m` members. */
  lemma ChopLargeSubjectsKeeps(d: Dataset, m: int)
    requires WellFormed(d)
    ensures var toRemove := ChopIndices(d.target2, m, |d.target2|);
            && (forall i :: i in Kept(|d.files|, toRemove) <==>
                  0 <= i < |d.files| && Rank(d.target2, i) < Quota(GroupSize(d.target2, d.target2[i]), m))
            && (forall i :: 0 <= i < |d.files| && GroupSize(d.target2, d.target2[i]) <= m ==>
                  i in Kept(|d.files|, toRemove))
  {
    ChopIndicesMembers(d.target2, m, |d.target2|);
    forall i | 0 <= i < |d.files|
      ensures Rank(d.target2, i) < GroupSize(d.target2, d.target2[i])
      ensures Chopped(d.target2, m, i) <==> Rank(d.target2, i) >= Quota(GroupSize(d.target2, d.target2[i]), m)
    {
      ChoppedRank(d.target2, m, i);
    }
  }

  /** `chop_large_subjects` fails exactly when an absent second-level label is
      kept, that is, when the group of absent labels keeps a member: for a cap
      of zero or more, when one occurs and the cap is positive. */
  lemma ChopLargeSubjectsFails(d: Dataset, m: int)
    requires WellFormed(d)
    ensures RemoveIndices(d, ChopIndices(d.target2, m, |d.target2|)).Err? <==>
              Quota(GroupSize(d.target2, None), m) > 0
  {
    var keep := Kept(|d.files|, ChopIndices(d.target2, m, |d.target2|));
    ChopLargeSubjectsKeeps(d, m);
    if Quota(GroupSize(d.target2, None), m) > 0 {
      var i := FirstOfGroup(d.target2, None);
      assert i in keep;
    } else {
      forall i | 0 <= i < |d.files| && d.target2[i] == None
        ensures i !in keep
      {
      }
    }
  }

  /** After `chop_large_subjects`, a group has `Quota` members: `m` of them,
      or all if it had fewer, for a cap of zero or more; all but `-m` of them
      for a negative cap. */
  lemma ChopLargeSubjectsGroups(d: Dataset, m: int, e: Dataset, k: nat)
    requires WellFormed(d)
    requires RemoveIndices(d, ChopIndices(d.target2, m, |d.target2|)) == Ok(e)
    requires k < |e.files|
    ensures var i := Kept(|d.files|, ChopIndices(d.target2, m, |d.target2|))[k];
            && GroupSize(e.target2, e.target2[k]) == Quota(GroupSize(d.target2, d.target2[i]), m)
            && (0 <= m ==> GroupSize(e.target2, e.target2[k]) <= m)
  {
    var toRemove := ChopIndices(d.target2, m, |d.target2|);
    ChoppedGroupKept(d.target2, m, d.target2[Kept(|d.files|, toRemove)[k]]);
    ResultGroupSize(d, toRemove, k);
  }

  /** Chopping keeps `Quota` members of group `v`. */
  lemma ChoppedGroupKept(t2: seq<Option<nat>>, m: int, v: Option<nat>)
    ensures KeptCount(t2, ChopIndices(t2, m, |t2|), v, |t2|) == Quota(GroupSize(t2, v), m)
  {
    var toRemove := ChopIndices(t2, m, |t2|);
    var q := Quota(GroupSize(t2, v), m);
    ChopIndicesMembers(t2, m, |t2|);
    forall j | 0 <= j < |t2| && t2[j] == v
      ensures j in toRemove <==> Count(t2, v, j) >= q
    {
      ChoppedRank(t2, m, j);
    }
    KeptGroupPrefix(t2, toRemove, v, q, |t2|);
  }
}
