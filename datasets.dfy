/** The dataset record: six parallel sequences sharing one record index. */
module Datasets {
  import opened Wrappers
  import opened Seqs

  /** A labelled dataset. Record `i` is `files[i]`, `data[i]`, `target1[i]` and
      `target2[i]`; a label is a position in the matching name table, and the
      second-level label of a record may be absent. */
  datatype Dataset = Dataset(
    files: seq<string>,
    data: seq<string>,
    target1: seq<nat>,
    target2: seq<Option<nat>>,
    target1Names: seq<string>,
    target2Names: seq<string>)

  /** One record's tuple. */
  datatype Record = Record(file: string, text: string, target1: nat, target2: Option<nat>)

  /** The dataset with no records and no names. */
  function Empty(): Dataset
  {
    Dataset([], [], [], [], [], [])
  }

  /** The parallel sequences are equally long and every present label is a
      position in its name table. */
  predicate WellFormed(d: Dataset)
  {
    && |d.data| == |d.files|
    && |d.target1| == |d.files|
    && |d.target2| == |d.files|
    && (forall i :: 0 <= i < |d.target1| ==> d.target1[i] < |d.target1Names|)
    && (forall i :: 0 <= i < |d.target2| && d.target2[i].Some? ==> d.target2[i].value < |d.target2Names|)
  }

  /** Every name-table slot is used by at least one record. */
  predicate NoOrphans(d: Dataset)
  {
    && (forall j :: 0 <= j < |d.target1Names| ==> j in d.target1)
    && (forall j :: 0 <= j < |d.target2Names| ==> Some(j) in d.target2)
  }

  /** The full dataset invariant: well formed, no name listed twice, no orphaned name. */
  predicate Valid(d: Dataset)
  {
    WellFormed(d) && Distinct(d.target1Names) && Distinct(d.target2Names) && NoOrphans(d)
  }

  /** The first-level label name of record `i`. */
  function Label1(d: Dataset, i: nat): string
    requires WellFormed(d) && i < |d.files|
  {
    d.target1Names[d.target1[i]]
  }

  /** The second-level label name of record `i`, if it has one. */
  function Label2(d: Dataset, i: nat): Option<string>
    requires WellFormed(d) && i < |d.files|
  {
    match d.target2[i]
    case None => None
    case Some(j) => Some(d.target2Names[j])
  }

  /** The tuple of record `i`. */
  function RecordAt(d: Dataset, i: nat): Record
    requires WellFormed(d) && i < |d.files|
  {
    Record(d.files[i], d.data[i], d.target1[i], d.target2[i])
  }

  /** All record tuples, in record order. */
  function Records(d: Dataset): (rs: seq<Record>)
    requires WellFormed(d)
    ensures |rs| == |d.files|
  {
    seq(|d.files|, i requires 0 <= i < |d.files| => RecordAt(d, i))
  }
}
