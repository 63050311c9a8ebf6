/** Grouping of records by their second-level label, as `filter_small_subjects`
    and `chop_large_subjects` build it. */
module Groups {
  import opened Wrappers
  import opened Seqs

  /** The positions below `n` whose second-level label is `v`, ascending: the
      list that `support[v]` holds once the grouping loop has seen `n` records. */
  function Group(t2: seq<Option<nat>>, v: Option<nat>, n: nat): seq<nat>
    requires n <= |t2|
  {
    if n == 0 then []
    else
      Group(t2, v, n - 1) + (if t2[n - 1] == v then [n - 1] else [])
  }

  /** A group's list is ascending, holds exactly the positions below `n` that
      carry `v`, and is as long as the count of `v`. */
  lemma {:induction false} GroupFacts(t2: seq<Option<nat>>, v: Option<nat>, n: nat)
    requires n <= |t2|
    ensures var g := Group(t2, v, n);
      && StrictlyIncreasing(g)
      && (forall k :: 0 <= k < |g| ==> g[k] < n && t2[g[k]] == v)
      && (forall i :: 0 <= i < n && t2[i] == v ==> i in g)
      && |g| == Count(t2, v, n)
  {
    if n > 0 {
      GroupFacts(t2, v, n - 1);
      var g := Group(t2, v, n - 1);
      assert Group(t2, v, n) == g + (if t2[n - 1] == v then [n - 1] else []);
    }
  }

  /** The number of records before `i` in the same second-level group as `i`:
      the position of `i` in its group's list. */
  function Rank(t2: seq<Option<nat>>, i: nat): nat
    requires i < |t2|
  {
    Count(t2, t2[i], i)
  }

  /** Record `i` sits in its group's list at position `Rank(t2, i)`. */
  lemma {:induction false} GroupPosition(t2: seq<Option<nat>>, n: nat, i: nat)
    requires n <= |t2| && i < n
    ensures Rank(t2, i) < |Group(t2, t2[i], n)|
    ensures Group(t2, t2[i], n)[Rank(t2, i)] == i
  {
    var v := t2[i];
    var g := Group(t2, v, n - 1);
    assert Group(t2, v, n) == g + (if t2[n - 1] == v then [n - 1] else []);
    if i < n - 1 {
      GroupPosition(t2, n - 1, i);
    } else {
      GroupFacts(t2, v, n - 1);
    }
  }

  /** The number of records whose second-level label is `v`. */
  function GroupSize(t2: seq<Option<nat>>, v: Option<nat>): nat
  {
    Count(t2, v, |t2|)
  }

  /** Counting over a longer prefix never counts fewer. */
  lemma {:induction false} CountMonotone<T>(s: seq<T>, x: T, m: nat, n: nat)
    requires m <= n <= |s|
    ensures Count(s, x, m) <= Count(s, x, n)
    decreases n - m
  {
    if m < n {
      CountMonotone(s, x, m, n - 1);
    }
  }

  /** A record comes after fewer members of its group than the group has. */
  lemma RankBelowSize(t2: seq<Option<nat>>, i: nat)
    requires i < |t2|
    ensures Rank(t2, i) < GroupSize(t2, t2[i])
  {
    CountMonotone(t2, t2[i], i + 1, |t2|);
  }

  /** After the grouping loop has seen `n` records: `support` holds the
      non-empty group of every label that occurred, and `order` lists those
      labels once each. */
  ghost predicate Grouped(t2: seq<Option<nat>>, support: map<Option<nat>, seq<nat>>, order: seq<Option<nat>>, n: nat)
    requires n <= |t2|
  {
    && (forall v :: v in support ==> support[v] == Group(t2, v, n) && support[v] != [])
    && (forall v :: v !in support ==> Group(t2, v, n) == [])
    && (forall v :: v in order <==> v in support)
    && Distinct(order)
  }

  /** One more record seen by the grouping loop: its position is appended to
      the list of its label, which is created, and its label listed, if new. */
  lemma GroupedStep(t2: seq<Option<nat>>, support: map<Option<nat>, seq<nat>>, order: seq<Option<nat>>, n: nat)
    requires n < |t2| && Grouped(t2, support, order, n)
    ensures var target := t2[n];
      var list := if target in support then support[target] else [];
      var order' := if target in support then order else order + [target];
      Grouped(t2, support[target := list + [n]], order', n + 1)
  {
    var target := t2[n];
    var list := if target in support then support[target] else [];
    var support' := support[target := list + [n]];
    forall v ensures Group(t2, v, n + 1) == Group(t2, v, n) + (if target == v then [n] else []) {
    }
    forall v | v in support' ensures support'[v] == Group(t2, v, n + 1) && support'[v] != [] {
      if v != target {
        assert support'[v] == support[v];
      }
    }
  }

  /** The grouping loop shared by `filter_small_subjects` (tools.py:245-250) and
      `chop_large_subjects` (tools.py:274-279): one list of positions per
      second-level label, the absent label included, and the key list `order`
      that the dictionary is iterated in, holding each label once. */
  method Support(t2: seq<Option<nat>>) returns (support: map<Option<nat>, seq<nat>>, order: seq<Option<nat>>)
    ensures forall v :: v in support <==> v in t2
    ensures forall v :: v in order <==> v in support
    ensures Distinct(order)
    ensures forall v :: v in support ==> support[v] == Group(t2, v, |t2|)
  {
    support, order := map[], [];
    var index := 0;
    while index < |t2|
      invariant 0 <= index <= |t2|
      invariant Grouped(t2, support, order, index)
    {
      var target := t2[index];
      GroupedStep(t2, support, order, index);
      if target !in support {
        support := support[target := []];
        order := order + [target];
      }
      support := support[target := support[target] + [index]];
      index := index + 1;
    }
    GroupedLabels(t2, support, order);
  }

  /** The labels grouped after the whole loop are exactly those that occur. */
  lemma GroupedLabels(t2: seq<Option<nat>>, support: map<Option<nat>, seq<nat>>, order: seq<Option<nat>>)
    requires Grouped(t2, support, order, |t2|)
    ensures forall v :: v in support <==> v in t2
  {
    forall v | v in t2 ensures v in support {
      var j := IndexOf(t2, v);
      GroupFacts(t2, v, |t2|);
      assert j in Group(t2, v, |t2|);
    }
    forall v | v in support ensures v in t2 {
      var g := Group(t2, v, |t2|);
      GroupFacts(t2, v, |t2|);
      assert g != [] && t2[g[0]] == v;
    }
  }

  /** The tail of a group's list from position `start` holds exactly the
      members of rank `start` or more. */
  lemma ChoppedMembers(t2: seq<Option<nat>>, v: Option<nat>, start: nat)
    requires start <= |Group(t2, v, |t2|)|
    ensures forall i :: i in Group(t2, v, |t2|)[start..] <==>
              0 <= i < |t2| && t2[i] == v && Rank(t2, i) >= start
  {
    var g := Group(t2, v, |t2|);
    GroupFacts(t2, v, |t2|);
    forall i | 0 <= i < |t2| && t2[i] == v
      ensures i in g[start..] <==> Rank(t2, i) >= start
    {
      GroupPosition(t2, |t2|, i);
      if i in g[start..] {
        var p :| start <= p < |g| && g[p] == i;
        assert p == Rank(t2, i);
      }
      if Rank(t2, i) >= start {
        assert g[start..][Rank(t2, i) - start] == i;
      }
    }
  }
}
