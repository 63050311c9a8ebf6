/** Building the dataset one XML document at a time (`LegalIntelligenceExtractor`). */
module Ingestion {
  import opened Wrappers
  import opened Seqs
  import opened Datasets
  import opened Subjects

  /** What parsing an XML document gives: either a parse error, or the
      document's extracted text and the texts of its `dcterms:subject`
      elements in document order. */
  datatype Xml = Malformed | Document(text: string, subjectTexts: seq<string>)

  /** The name table after `if name not in names: names.append(name)`. */
  function WithName(names: seq<string>, name: string): (r: seq<string>)
    ensures name in r
  {
    if name in names then names else names + [name]
  }

  /** The dataset after accepting a document whose subjects are `subjects`:
      the path, the text and the label positions of the one or two subjects
      are appended, each subject name being added to its table if missing. */
  function AddRecord(d: Dataset, path: string, text: string, subjects: seq<string>): (r: Dataset)
    requires 1 <= |subjects| <= 2
    ensures |r.files| == |d.files| + 1
  {
    var names1 := WithName(d.target1Names, subjects[0]);
    var names2 := if |subjects| == 2 then WithName(d.target2Names, subjects[1]) else d.target2Names;
    var label2 := if |subjects| == 2 then Some(IndexOf(names2, subjects[1])) else None;
    Dataset(d.files + [path], d.data + [text], d.target1 + [IndexOf(names1, subjects[0])],
            d.target2 + [label2], names1, names2)
  }

  /** The dataset after `handle_xml_file(path, content)`: a malformed document,
      or one with no subject or more than two, leaves it as it was. */
  function Ingested(d: Dataset, path: string, content: Xml): Dataset
  {
    match content
    case Malformed => d
    case Document(text, subjectTexts) =>
      var subjects := SubjectsOf(subjectTexts);
      if |subjects| == 1 || |subjects| == 2 then AddRecord(d, path, text, subjects) else d
  }

  /** `LegalIntelligenceExtractor` (tools.py:53-91): holds the dataset built so
      far, starting empty. */
  class LegalIntelligenceExtractor {
    var data: Dataset

    /** The whole dataset invariant holds of the dataset built so far. */
    ghost predicate Valid()
      reads this
    {
      Datasets.Valid(data)
    }

    constructor ()
      ensures data == Empty() && Valid()
    {
      data := Empty();
    }

    /** `handle_xml_file` (tools.py:58-91). */
    method HandleXmlFile(path: string, content: Xml)
      modifies this
      ensures data == Ingested(old(data), path, content)
      ensures old(Valid()) ==> Valid()
    {
      if content.Malformed? {
        return;
      }
      var text := content.text;
      var subjects := ExtractSubjects(content.subjectTexts);
      if |subjects| == 1 || |subjects| == 2 {
        ghost var before := data;
        data := data.(files := data.files + [path]);
        data := data.(data := data.data + [text]);
        var subject1 := subjects[0];
        if subject1 !in data.target1Names {
          data := data.(target1Names := data.target1Names + [subject1]);
        }
        data := data.(target1 := data.target1 + [IndexOf(data.target1Names, subject1)]);
        if |subjects| == 2 {
          var subject2 := subjects[1];
          if subject2 !in data.target2Names {
            data := data.(target2Names := data.target2Names + [subject2]);
          }
          data := data.(target2 := data.target2 + [Some(IndexOf(data.target2Names, subject2))]);
        } else {
          data := data.(target2 := data.target2 + [None]);
        }
        assert data == AddRecord(before, path, text, subjects);
        if Datasets.Valid(before) {
          AddRecordValid(before, path, text, subjects);
        }
      }
    }
  }

  // ---------------------------------------------------------------------
  // What accepting a document does

  /** A document is accepted exactly when it parses and has one or two
      subjects; otherwise the dataset is unchanged. */
  lemma IngestedAccepts(d: Dataset, path: string, content: Xml)
    ensures Ingested(d, path, content) == d ||
            |Ingested(d, path, content).files| == |d.files| + 1
    ensures |Ingested(d, path, content).files| == |d.files| + 1 <==>
              content.Document? && 1 <= |SubjectsOf(content.subjectTexts)| <= 2
  {
  }

  /** Exactly one record is appended, its names are the document's subjects
      (the second absent when there is one subject), the records already
      there keep their tuples and names, and each name table only grows, by
      appending the subject when it was missing. */
  lemma AddRecordAppends(d: Dataset, path: string, text: string, subjects: seq<string>)
    requires WellFormed(d) && 1 <= |subjects| <= 2
    ensures var r := AddRecord(d, path, text, subjects);
      && WellFormed(r)
      && r.files[|d.files|] == path && r.data[|d.files|] == text
      && Label1(r, |d.files|) == subjects[0]
      && Label2(r, |d.files|) == (if |subjects| == 2 then Some(subjects[1]) else None)
      && (forall i :: 0 <= i < |d.files| ==>
            RecordAt(r, i) == RecordAt(d, i) && Label1(r, i) == Label1(d, i) && Label2(r, i) == Label2(d, i))
      && r.target1Names == WithName(d.target1Names, subjects[0])
      && r.target2Names == (if |subjects| == 2 then WithName(d.target2Names, subjects[1]) else d.target2Names)
  {
    var r := AddRecord(d, path, text, subjects);
    WithNameGrows(d.target1Names, subjects[0]);
    if |subjects| == 2 {
      WithNameGrows(d.target2Names, subjects[1]);
    }
    forall i | 0 <= i < |d.files|
      ensures RecordAt(r, i) == RecordAt(d, i) && Label1(r, i) == Label1(d, i) && Label2(r, i) == Label2(d, i)
    {
      assert r.target1[i] == d.target1[i] && r.target2[i] == d.target2[i];
    }
  }

  /** Adding a name keeps the table as a prefix and adds at most the name. */
  lemma WithNameGrows(names: seq<string>, name: string)
    ensures var r := WithName(names, name);
      && names <= r
      && |r| <= |names| + 1
      && (r == names <==> name in names)
      && (Distinct(names) ==> Distinct(r))
  {
  }

  /** Accepting a document keeps the dataset invariant: names stay distinct
      and every name is still used by some record. */
  lemma AddRecordValid(d: Dataset, path: string, text: string, subjects: seq<string>)
    requires 1 <= |subjects| <= 2
    requires Datasets.Valid(d)
    ensures Datasets.Valid(AddRecord(d, path, text, subjects))
  {
    var r := AddRecord(d, path, text, subjects);
    var n := |d.files|;
    AddRecordAppends(d, path, text, subjects);
    WithNameGrows(d.target1Names, subjects[0]);
    forall j | 0 <= j < |r.target1Names| ensures j in r.target1 {
      if j < |d.target1Names| {
        var i := IndexOf(d.target1, j);
        assert r.target1[i] == j;
      } else {
        assert r.target1[n] == j;
      }
    }
    if |subjects| == 2 {
      WithNameGrows(d.target2Names, subjects[1]);
    }
    forall j | 0 <= j < |r.target2Names| ensures Some(j) in r.target2 {
      if j < |d.target2Names| {
        var i := IndexOf(d.target2, Some(j));
        assert r.target2[i] == Some(j);
      } else {
        assert r.target2[n] == Some(j);
      }
    }
  }

  /** A document whose only subject text is two names around a `;`, as in
      `"Civil Law; Contracts"`, adds one record filed under those two names. */
  lemma TwoSubjectDocument(d: Dataset, path: string, text: string,
                           first: string, before: string, after: string, second: string)
    requires WellFormed(d)
    requires ';' !in first && ';' !in second
    requires AllSpace(before) && AllSpace(after)
    requires |first| > 0 ==> !IsSpace(first[|first| - 1])
    requires |second| > 0 ==> !IsSpace(second[0])
    ensures var r := Ingested(d, path, Document(text, [first + before + ";" + after + second]));
      && WellFormed(r) && |r.files| == |d.files| + 1
      && Label1(r, |d.files|) == first && Label2(r, |d.files|) == Some(second)
  {
    var subjectText := first + before + ";" + after + second;
    TwoSubjects(first, before, after, second);
    SplitCollapse(subjectText);
    assert [subjectText][..0] == [];
    assert SubjectsOf([subjectText]) == [first, second];
    AddRecordAppends(d, path, text, [first, second]);
  }

  /** A document whose only subject text has no `;` adds one record filed
      under that text, with no second-level label. */
  lemma OneSubjectDocument(d: Dataset, path: string, text: string, subjectText: string)
    requires WellFormed(d)
    requires ';' !in subjectText
    ensures var r := Ingested(d, path, Document(text, [subjectText]));
      && WellFormed(r) && |r.files| == |d.files| + 1
      && Label1(r, |d.files|) == subjectText && Label2(r, |d.files|) == None
  {
    assert [subjectText][..0] == [];
    assert Tidy([subjectText])[0] == subjectText;
    assert SubjectsOf([subjectText]) == [subjectText];
    AddRecordAppends(d, path, text, [subjectText]);
  }
}
