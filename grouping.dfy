/** The read-only grouping view `get_indices`. */
module Grouping {
  import opened Wrappers
  import opened Seqs
  import opened Datasets

  type Grouping = map<string, map<string, seq<nat>>>

  /** Name of the second-level label of record `i`, which must be present. */
  function Name2(d: Dataset, i: nat): string
    requires WellFormed(d) && i < |d.files| && d.target2[i].Some?
  {
    d.target2Names[d.target2[i].value]
  }

  /** Each of the first `n` records has its second-level label and is listed
      under its own pair of names. */
  ghost predicate Complete(d: Dataset, m: Grouping, n: nat)
    requires WellFormed(d) && n <= |d.files|
  {
    forall i :: 0 <= i < n ==> d.target2[i].Some? && Listed(m, Label1(d, i), Name2(d, i), i)
  }

  /** Record `i` is listed under the pair `a`, `b`. */
  predicate Listed(m: Grouping, a: string, b: string, i: nat)
  {
    a in m && b in m[a] && i in m[a][b]
  }

  /** Whatever is listed is one of the first `n` records, under its own names. */
  ghost predicate Sound(d: Dataset, m: Grouping, n: nat)
    requires WellFormed(d)
  {
    forall a: string, b: string, i: nat :: Listed(m, a, b, i) ==>
      0 <= i < n <= |d.files| && Label1(d, i) == a && Label2(d, i) == Some(b)
  }

  /** Every list is ascending, holds each record once, and is not empty; no
      first-level name maps to an empty inner map. */
  ghost predicate Ordered(m: Grouping)
  {
    && (forall a, b :: a in m && b in m[a] ==> StrictlyIncreasing(m[a][b]) && m[a][b] != [])
    && (forall a :: a in m ==> m[a] != map[])
  }

  /** `m` with `x` appended under the pair `a`, `b`, which is created if missing. */
  function Insert(m: Grouping, a: string, b: string, x: nat): (r: Grouping)
    ensures a in r && b in r[a]
  {
    var inner := if a in m then m[a] else map[];
    var list := if b in inner then inner[b] else [];
    m[a := inner[b := list + [x]]]
  }

  lemma InsertComplete(d: Dataset, m: Grouping, n: nat)
    requires WellFormed(d) && n < |d.files| && d.target2[n].Some?
    requires Complete(d, m, n)
    ensures Complete(d, Insert(m, Label1(d, n), Name2(d, n), n), n + 1)
  {
    var a, b := Label1(d, n), Name2(d, n);
    var m' := Insert(m, a, b, n);
    forall i | 0 <= i < n + 1
      ensures d.target2[i].Some? && Listed(m', Label1(d, i), Name2(d, i), i)
    {
      if i < n {
        assert Listed(m, Label1(d, i), Name2(d, i), i);
        if Label1(d, i) == a && Name2(d, i) == b {
          assert m'[a][b] == m[a][b] + [n];
        } else if Label1(d, i) == a {
          assert m'[a][Name2(d, i)] == m[a][Name2(d, i)];
        } else {
          assert m'[Label1(d, i)] == m[Label1(d, i)];
        }
      } else {
        assert m'[a][b][|m'[a][b]| - 1] == n;
      }
    }
  }

  lemma InsertSound(d: Dataset, m: Grouping, n: nat)
    requires WellFormed(d) && n < |d.files| && d.target2[n].Some?
    requires Sound(d, m, n)
    ensures Sound(d, Insert(m, Label1(d, n), Name2(d, n), n), n + 1)
  {
    var m' := Insert(m, Label1(d, n), Name2(d, n), n);
    forall a: string, b: string, i: nat | Listed(m', a, b, i)
      ensures 0 <= i < n + 1 <= |d.files| && Label1(d, i) == a && Label2(d, i) == Some(b)
    {
      if a == Label1(d, n) && b == Name2(d, n) {
        if i != n {
          assert Listed(m, a, b, i);
        }
      } else {
        assert m'[a][b] == m[a][b];
        assert Listed(m, a, b, i);
      }
    }
  }

  lemma InsertOrdered(d: Dataset, m: Grouping, n: nat)
    requires WellFormed(d) && n < |d.files| && d.target2[n].Some?
    requires Sound(d, m, n) && Ordered(m)
    ensures Ordered(Insert(m, Label1(d, n), Name2(d, n), n))
  {
    var m' := Insert(m, Label1(d, n), Name2(d, n), n);
    forall a, b | a in m' && b in m'[a]
      ensures StrictlyIncreasing(m'[a][b]) && m'[a][b] != []
    {
      if a == Label1(d, n) && b == Name2(d, n) {
        if a in m && b in m[a] {
          var list := m[a][b];
          assert forall k :: 0 <= k < |list| ==> Listed(m, a, b, list[k]);
          assert m'[a][b] == list + [n];
        }
      } else {
        assert m'[a][b] == m[a][b];
      }
    }
    forall a | a in m' ensures m'[a] != map[] {
      if a == Label1(d, n) {
        assert Name2(d, n) in m'[a];
      } else {
        assert m'[a] == m[a];
      }
    }
  }

  /** `get_indices` (tools.py:287-313): a map from first-level name to
      second-level name to the ascending list of the records carrying that pair.
      Looking up the name of an absent second-level label raises, so the result
      is an error exactly when some record has none. */
  method GetIndices(d: Dataset) returns (r: Result<Grouping>)
    requires WellFormed(d)
    ensures r.Err? <==> None in d.target2
    // every record is listed under its own pair of names
    ensures r.Ok? ==> forall i :: 0 <= i < |d.files| ==>
              && d.target2[i].Some?
              && Label1(d, i) in r.value
              && Name2(d, i) in r.value[Label1(d, i)]
              && i in r.value[Label1(d, i)][Name2(d, i)]
    // and listed nowhere else
    ensures r.Ok? ==> forall a: string, b: string, i: nat :: Listed(r.value, a, b, i) ==>
              0 <= i < |d.files| && Label1(d, i) == a && Label2(d, i) == Some(b)
    // each list is ascending (so holds each record once) and not empty
    ensures r.Ok? ==> forall a, b :: a in r.value && b in r.value[a] ==>
              StrictlyIncreasing(r.value[a][b]) && r.value[a][b] != []
    // and every first-level name holds at least one second-level name
    ensures r.Ok? ==> forall a :: a in r.value ==> r.value[a] != map[]
  {
    var mapping: Grouping := map[];
    var index := 0;
    while index < |d.target2|
      invariant 0 <= index <= |d.files|
      invariant Complete(d, mapping, index)
      invariant Sound(d, mapping, index)
      invariant Ordered(mapping)
    {
      var target1Name := d.target1Names[d.target1[index]];
      var target2 := d.target2[index];
      if target2.None? {
        assert target2 in d.target2;
        return Err(AbsentLabelIndexed);
      }
      var target2Name := d.target2Names[target2.value];
      InsertComplete(d, mapping, index);
      InsertSound(d, mapping, index);
      InsertOrdered(d, mapping, index);
      var inner: map<string, seq<nat>> := if target1Name in mapping then mapping[target1Name] else map[];
      var list: seq<nat> := if target2Name in inner then inner[target2Name] else [];
      mapping := mapping[target1Name := inner[target2Name := list + [index]]];
      index := index + 1;
    }
    r := Ok(mapping);
  }
}
