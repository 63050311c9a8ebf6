/** Sequence helpers used throughout the model. */
module Seqs {

  /** All elements are pairwise different. */
  predicate Distinct<T(==)>(s: seq<T>)
  {
    forall i, j :: 0 <= i < j < |s| ==> s[i] != s[j]
  }

  /** Every element is smaller than every later element. */
  predicate StrictlyIncreasing(s: seq<int>)
  {
    forall i, j :: 0 <= i < j < |s| ==> s[i] < s[j]
  }

  /** The list `[0, 1, ..., n - 1]`. */
  function Range(n: nat): (r: seq<nat>)
  {
    seq(n, i requires 0 <= i < n => i)
  }

  /** Position of the first occurrence of `x` in `s` (a list's `index` method). */
  function IndexOf<T(==)>(s: seq<T>, x: T): (k: nat)
    requires x in s
    ensures k < |s| && s[k] == x
    ensures forall j :: 0 <= j < k ==> s[j] != x
  {
    if s[0] == x then 0 else 1 + IndexOf(s[1..], x)
  }

  /** The elements of `s` at the positions listed in `positions`, in that order
      (a list comprehension `[s[i] for i in positions]`). */
  function Select<T>(s: seq<T>, positions: seq<nat>): (r: seq<T>)
    requires forall k :: 0 <= k < |positions| ==> positions[k] < |s|
    ensures |r| == |positions|
    ensures forall k :: 0 <= k < |positions| ==> r[k] == s[positions[k]]
  {
    seq(|positions|, k requires 0 <= k < |positions| => s[positions[k]])
  }

  /** Selecting one more position appends its element. */
  lemma SelectSnoc<T>(s: seq<T>, positions: seq<nat>, j: nat)
    requires forall k :: 0 <= k < |positions| ==> positions[k] < |s|
    requires j < |s|
    ensures Select(s, positions + [j]) == Select(s, positions) + [s[j]]
  {
  }

  /** A strictly increasing sequence has as many distinct elements as it is long. */
  lemma {:induction false} IncreasingCardinality(s: seq<int>)
    requires StrictlyIncreasing(s)
    ensures |set x | x in s| == |s|
  {
    if s != [] {
      var p := s[..|s| - 1];
      IncreasingCardinality(p);
      assert (set x | x in s) == (set x | x in p) + {s[|s| - 1]};
      assert s[|s| - 1] !in (set x | x in p);
    }
  }

  /** Taking out the element at position `j` takes one copy of it out of the multiset. */
  lemma RemoveAtMultiset<T>(b: seq<T>, j: nat)
    requires j < |b|
    ensures multiset(b[..j] + b[j + 1..]) + multiset{b[j]} == multiset(b)
  {
    assert b == b[..j] + [b[j]] + b[j + 1..];
  }

  /** Selecting without the position at `j` takes one copy of the element it
      selects out of the multiset. */
  lemma SelectRemoveAt<T>(s: seq<T>, b: seq<nat>, j: nat)
    requires forall k :: 0 <= k < |b| ==> b[k] < |s|
    requires j < |b|
    ensures multiset(Select(s, b[..j] + b[j + 1..])) + multiset{s[b[j]]} == multiset(Select(s, b))
  {
    var sb := Select(s, b);
    var b' := b[..j] + b[j + 1..];
    assert forall k :: 0 <= k < |b'| ==> b'[k] == if k < j then b[k] else b[k + 1];
    assert Select(s, b') == sb[..j] + sb[j + 1..];
    RemoveAtMultiset(sb, j);
  }

  /** Selecting through two position lists with the same multiset of positions
      gives two lists with the same multiset of elements. */
  lemma {:induction false} SelectMultiset<T>(s: seq<T>, a: seq<nat>, b: seq<nat>)
    requires forall k :: 0 <= k < |a| ==> a[k] < |s|
    requires forall k :: 0 <= k < |b| ==> b[k] < |s|
    requires multiset(a) == multiset(b)
    ensures multiset(Select(s, a)) == multiset(Select(s, b))
    decreases |a|
  {
    if a == [] {
      assert |b| == |multiset(b)| == 0;
    } else {
      var x := a[0];
      assert x in multiset(b);
      var j :| 0 <= j < |b| && b[j] == x;
      var b' := b[..j] + b[j + 1..];
      RemoveAtMultiset(b, j);
      assert a == [x] + a[1..];
      assert multiset(a) == multiset(a[1..]) + multiset{x};
      assert multiset(a[1..]) == multiset(b') by {
        forall y ensures multiset(a[1..])[y] == multiset(b')[y] {
          assert multiset(a)[y] == multiset(b)[y];
        }
      }
      SelectMultiset(s, a[1..], b');
      SelectRemoveAt(s, b, j);
      SelectRemoveAt(s, a, 0);
      assert a[..0] + a[1..] == a[1..];
    }
  }

  /** How many of the first `n` elements of `s` equal `x`. */
  function Count<T(==)>(s: seq<T>, x: T, n: nat): (c: nat)
    requires n <= |s|
    ensures c <= n
  {
    if n == 0 then 0 else Count(s, x, n - 1) + (if s[n - 1] == x then 1 else 0)
  }

  /** Two equally long lists with the same equality pattern (positions `i` and
      `k` agree in one exactly when they agree in the other) count the element
      at `k` equally often. */
  lemma {:induction false} SamePatternCount<T, U>(a: seq<T>, b: seq<U>, k: nat, n: nat)
    requires |a| == |b| && k < |a| && n <= |a|
    requires forall i :: 0 <= i < |a| ==> (a[i] == a[k] <==> b[i] == b[k])
    ensures Count(a, a[k], n) == Count(b, b[k], n)
  {
    if n > 0 {
      SamePatternCount(a, b, k, n - 1);
    }
  }

  /** Two lists that agree on their first `n` elements count the same there. */
  lemma {:induction false} CountAgree<T>(a: seq<T>, b: seq<T>, x: T, n: nat)
    requires n <= |a| && n <= |b|
    requires forall i :: 0 <= i < n ==> a[i] == b[i]
    ensures Count(a, x, n) == Count(b, x, n)
  {
    if n > 0 {
      CountAgree(a, b, x, n - 1);
    }
  }

  /** Counting over a list with one more element at the end. */
  lemma CountSnoc<T>(s: seq<T>, x: T, v: T)
    ensures Count(s + [x], v, |s| + 1) == Count(s, v, |s|) + (if x == v then 1 else 0)
  {
    CountAgree(s + [x], s, v, |s|);
  }

  /** Regrouping a concatenation of four sequences. */
  lemma Regroup<T>(a: seq<T>, b: seq<T>, c: seq<T>, d: seq<T>)
    ensures a + (b + c + d) == a + b + c + d
  {
  }
}
