/** Splitting the text of `dcterms:subject` elements into subject names
    (`extract_subjects`). */
module Subjects {
  import opened Seqs

  /** The characters Python treats as whitespace in `str` patterns (`\s`):
      the ASCII controls 9-13 and 28-31, space, and the Unicode separators. */
  predicate IsSpace(c: char)
  {
    var n := c as int;
    || 9 <= n <= 13
    || 28 <= n <= 32
    || n == 0x85 || n == 0xA0 || n == 0x1680
    || 0x2000 <= n <= 0x200A
    || n == 0x2028 || n == 0x2029 || n == 0x202F || n == 0x205F || n == 0x3000
  }

  predicate AllSpace(s: string)
  {
    forall i :: 0 <= i < |s| ==> IsSpace(s[i])
  }

  /** Length of the whitespace run at the start of `s`. */
  function SpaceRun(s: string): (k: nat)
    ensures k <= |s| && AllSpace(s[..k])
    ensures k < |s| ==> !IsSpace(s[k])
  {
    if |s| > 0 && IsSpace(s[0]) then
      var k := SpaceRun(s[1..]);
      assert s[..1 + k] == [s[0]] + s[1..][..k];
      1 + k
    else 0
  }

  /** `s` without its leading whitespace. */
  function TrimStart(s: string): string
  {
    s[SpaceRun(s)..]
  }

  /** `s` without its trailing whitespace: the longest prefix ending in a
      non-space, followed in `s` only by whitespace. */
  function TrimEnd(s: string): (r: string)
    ensures |r| <= |s| && r == s[..|r|] && AllSpace(s[|r|..])
    ensures |r| > 0 ==> !IsSpace(r[|r| - 1])
  {
    if |s| > 0 && IsSpace(s[|s| - 1]) then
      var r := TrimEnd(s[..|s| - 1]);
      assert s[|r|..] == s[..|s| - 1][|r|..] + [s[|s| - 1]];
      r
    else s
  }

  /** The scanner `re.sub(r"\s*;\s*", ";", s)` performs at tools.py:114:
      scanning left to right, a match starts where a whitespace run (possibly
      empty) is followed by `;`, and takes the whitespace after `;` with it;
      every other character is copied. */
  function Collapse(s: string): string
    decreases |s|
  {
    if s == [] then []
    else
      var k := SpaceRun(s);
      if k < |s| && s[k] == ';' then ";" + Collapse(TrimStart(s[k + 1..]))
      else [s[0]] + Collapse(s[1..])
  }

  /** `s.split(";")`: the fields between separators, in order. */
  function Split(s: string): (fs: seq<string>)
    ensures |fs| >= 1
    ensures forall k :: 0 <= k < |fs| ==> ';' !in fs[k]
    decreases |s|
  {
    if ';' !in s then [s]
    else
      var i := IndexOf(s, ';');
      [s[..i]] + Split(s[i + 1..])
  }

  /** `";".join(fs)`. */
  function Join(fs: seq<string>): string
    requires |fs| >= 1
  {
    if |fs| == 1 then fs[0] else fs[0] + ";" + Join(fs[1..])
  }

  /** Field `k` of `fs` with the whitespace next to a separator removed: the
      end of every field but the last, the start of every field but the first. */
  function TidyField(fs: seq<string>, k: nat): string
    requires k < |fs|
  {
    var f := if k < |fs| - 1 then TrimEnd(fs[k]) else fs[k];
    if k > 0 then TrimStart(f) else f
  }

  /** The reference meaning of the substitution followed by the split: the
      fields of the text, each tidied. */
  function Tidy(fs: seq<string>): (r: seq<string>)
    requires |fs| >= 1
    ensures |r| == |fs|
  {
    seq(|fs|, k requires 0 <= k < |fs| => TidyField(fs, k))
  }

  /** The subject names one `dcterms:subject` text contributes
      (tools.py:113-115). */
  function SplitSubject(s: string): seq<string>
  {
    Split(Collapse(s))
  }

  /** The subject names of a document's subject texts, in document order:
      the reference the loop of `extract_subjects` is proved against. */
  function SubjectsOf(texts: seq<string>): seq<string>
  {
    if texts == [] then []
    else SubjectsOf(texts[..|texts| - 1]) + Tidy(Split(texts[|texts| - 1]))
  }

  /** `extract_subjects` (tools.py:94-116), given the text of each
      `dcterms:subject` element in document order: the fields of every text,
      with the whitespace around each `;` removed, concatenated. */
  method ExtractSubjects(texts: seq<string>) returns (subjects: seq<string>)
    ensures subjects == SubjectsOf(texts)
    ensures forall k :: 0 <= k < |subjects| ==> ';' !in subjects[k]
  {
    subjects := [];
    for i := 0 to |texts|
      invariant subjects == SubjectsOf(texts[..i])
      invariant forall k :: 0 <= k < |subjects| ==> ';' !in subjects[k]
    {
      var subjectText := texts[i];
      subjectText := Collapse(subjectText);
      SplitCollapse(texts[i]);
      assert texts[..i + 1][..i] == texts[..i];
      subjects := subjects + Split(subjectText);
    }
    assert texts[..|texts|] == texts;
  }

  // ---------------------------------------------------------------------
  // Whitespace runs and trimming

  lemma {:induction false} SpaceRunUnique(s: string, a: nat)
    requires a <= |s| && AllSpace(s[..a]) && (a < |s| ==> !IsSpace(s[a]))
    ensures SpaceRun(s) == a
    decreases a
  {
    if a > 0 {
      assert IsSpace(s[..a][0]);
      assert s[1..][..a - 1] == s[..a][1..];
      SpaceRunUnique(s[1..], a - 1);
    }
  }

  lemma TrimStartUnique(s: string, a: nat)
    requires a <= |s| && AllSpace(s[..a]) && (a < |s| ==> !IsSpace(s[a]))
    ensures TrimStart(s) == s[a..]
  {
    SpaceRunUnique(s, a);
  }

  lemma {:induction false} TrimEndUnique(s: string, b: nat)
    requires b <= |s| && AllSpace(s[b..]) && (b > 0 ==> !IsSpace(s[b - 1]))
    ensures TrimEnd(s) == s[..b]
    decreases |s|
  {
    if |s| > 0 && IsSpace(s[|s| - 1]) {
      var s' := s[..|s| - 1];
      assert AllSpace(s'[b..]) by {
        assert forall i :: 0 <= i < |s'| - b ==> s'[b..][i] == s[b..][i];
      }
      TrimEndUnique(s', b);
      assert s'[..b] == s[..b];
    } else {
    }
  }

  /** Trimming the two ends of a string can be done in either order. */
  lemma TrimCommute(s: string)
    ensures TrimStart(TrimEnd(s)) == TrimEnd(TrimStart(s))
  {
    var a := SpaceRun(s);
    var e := TrimEnd(s);
    var b := |e|;
    if a == |s| {
      TrimEndAllSpace(s);
      assert TrimStart(s) == [];
    } else {
      TrimCommuteInner(s, a, b);
    }
  }

  /** A string that is not all whitespace keeps its first non-space
      character when trimmed at the end. */
  lemma RunBeforeTrimmedEnd(s: string)
    requires SpaceRun(s) < |s|
    ensures SpaceRun(s) < |TrimEnd(s)|
  {
  }

  /** `TrimCommute` where `s` is not all whitespace: both orders give
      `s[a..b]`, with `a` the length of the leading run and `b` that of the
      trimmed prefix. */
  lemma TrimCommuteInner(s: string, a: nat, b: nat)
    requires a == SpaceRun(s) < |s| && b == |TrimEnd(s)|
    ensures TrimStart(TrimEnd(s)) == s[a..b] == TrimEnd(TrimStart(s))
  {
    RunBeforeTrimmedEnd(s);
    TrimStartOfTrimmedEnd(s, a, b);
    TrimEndOfTrimmedStart(s, a, b);
  }

  /** Trimming the start after the end leaves `s[a..b]`. */
  lemma TrimStartOfTrimmedEnd(s: string, a: nat, b: nat)
    requires a == SpaceRun(s) < b == |TrimEnd(s)|
    ensures TrimStart(TrimEnd(s)) == s[a..b]
  {
    var e := TrimEnd(s);
    assert e[..a] == s[..a];
    TrimStartUnique(e, a);
  }

  /** Trimming the end after the start leaves `s[a..b]`. */
  lemma TrimEndOfTrimmedStart(s: string, a: nat, b: nat)
    requires a == SpaceRun(s) < b == |TrimEnd(s)|
    ensures TrimEnd(TrimStart(s)) == s[a..b]
  {
    var e := TrimEnd(s);
    assert e[b - 1] == s[b - 1];
    TrimEndOfSuffix(s, a, b);
  }

  /** A suffix `s[a..]` of a string whose whitespace tail starts at `b`, after
      position `a`, trims at the end to `s[a..b]`. */
  lemma TrimEndOfSuffix(s: string, a: nat, b: nat)
    requires a < b <= |s| && AllSpace(s[b..]) && !IsSpace(s[b - 1])
    ensures TrimEnd(s[a..]) == s[a..b]
  {
    var t := s[a..];
    assert t[b - a..] == s[b..];
    assert t[b - a - 1] == s[b - 1];
    TrimEndUnique(t, b - a);
    assert t[..b - a] == s[a..b];
  }

  /** A leading whitespace run ends at or before the first `;`. */
  lemma {:induction false} SpaceRunOfField(f: string, rest: string)
    requires ';' !in f
    ensures SpaceRun(f + ";" + rest) == SpaceRun(f)
    decreases |f|
  {
    var s := f + ";" + rest;
    if |f| > 0 && IsSpace(f[0]) {
      assert s[1..] == f[1..] + ";" + rest;
      SpaceRunOfField(f[1..], rest);
    } else if |f| > 0 {
      assert s[0] == f[0];
    } else {
      assert s[0] == ';';
    }
  }

  /** Removing trailing whitespace keeps a prefix, so no `;` appears. */
  lemma TrimEndNoSemicolon(f: string)
    requires ';' !in f
    ensures ';' !in TrimEnd(f)
  {
  }

  /** A string containing a non-space keeps its first character when trimmed
      at the end. */
  lemma TrimEndCons(c: char, t: string)
    requires !AllSpace([c] + t)
    ensures TrimEnd([c] + t) == [c] + TrimEnd(t)
  {
    var s := [c] + t;
    var r := TrimEnd(t);
    var b := 1 + |r|;
    assert AllSpace(s[b..]) by {
      assert s[b..] == t[|r|..];
    }
    if b == 1 {
      assert !IsSpace(c) by {
        if IsSpace(c) {
          forall i | 0 <= i < |s| ensures IsSpace(s[i]) {
            if i > 0 { assert s[i] == t[|r|..][i - 1]; }
          }
        }
      }
    } else {
      assert s[b - 1] == r[|r| - 1];
    }
    TrimEndUnique(s, b);
    assert s[..b] == [c] + r;
  }

  lemma TrimEndAllSpace(s: string)
    requires AllSpace(s)
    ensures TrimEnd(s) == []
  {
    assert s[0..] == s;
    TrimEndUnique(s, 0);
  }

  // ---------------------------------------------------------------------
  // The scanner

  /** A text without `;` is left alone by the substitution. */
  lemma {:induction false} CollapseWithoutSemicolon(s: string)
    requires ';' !in s
    ensures Collapse(s) == s
    decreases |s|
  {
    if s != [] {
      var k := SpaceRun(s);
      assert !(k < |s| && s[k] == ';');
      assert ';' !in s[1..];
      CollapseWithoutSemicolon(s[1..]);
      assert s == [s[0]] + s[1..];
    }
  }

  /** One step of the scanner where a match starts. */
  lemma CollapseMatch(s: string)
    requires SpaceRun(s) < |s| && s[SpaceRun(s)] == ';'
    ensures Collapse(s) == ";" + Collapse(TrimStart(s[SpaceRun(s) + 1..]))
  {
  }

  /** One step of the scanner where no match starts: a character is copied. */
  lemma CollapseCopy(s: string)
    requires s != [] && !(SpaceRun(s) < |s| && s[SpaceRun(s)] == ';')
    ensures Collapse(s) == [s[0]] + Collapse(s[1..])
  {
  }

  /** The substitution on a text whose first `;` is at `i`: the whitespace
      just before and just after that `;` is removed, the characters before
      it are kept. */
  lemma {:induction false} CollapseAt(s: string, i: nat)
    requires i < |s| && s[i] == ';'
    requires forall j :: 0 <= j < i ==> s[j] != ';'
    ensures Collapse(s) == TrimEnd(s[..i]) + ";" + Collapse(TrimStart(s[i + 1..]))
    decreases i
  {
    SpaceRunBefore(s, i);
    if SpaceRun(s) == i {
      CollapseAtRun(s, i);
    } else {
      var t := s[1..];
      assert t[i - 1] == ';';
      assert forall j :: 0 <= j < i - 1 ==> t[j] != ';' by {
        forall j | 0 <= j < i - 1 ensures t[j] != ';' {
          assert t[j] == s[j + 1];
        }
      }
      CollapseAt(t, i - 1);
      CollapseAtChar(s, i);
    }
  }

  /** The first whitespace run stops at or before the first `;`. */
  lemma {:induction false} SpaceRunBefore(s: string, i: nat)
    requires i < |s| && s[i] == ';'
    ensures SpaceRun(s) <= i
  {
    if i > 0 && IsSpace(s[0]) {
      SpaceRunBefore(s[1..], i - 1);
    }
  }

  /** `CollapseAt` where only whitespace precedes the first `;`. */
  lemma CollapseAtRun(s: string, i: nat)
    requires i < |s| && s[i] == ';' && SpaceRun(s) == i
    ensures Collapse(s) == TrimEnd(s[..i]) + ";" + Collapse(TrimStart(s[i + 1..]))
  {
    TrimEndAllSpace(s[..i]);
    CollapseMatch(s);
    var back := Collapse(TrimStart(s[i + 1..]));
    assert [] + ";" + back == ";" + back;
  }

  /** `CollapseAt` where a character other than whitespace precedes the first
      `;`, given the result for the text after the first character. */
  lemma CollapseAtChar(s: string, i: nat)
    requires i < |s| && s[i] == ';'
    requires forall j :: 0 <= j < i ==> s[j] != ';'
    requires SpaceRun(s) < i
    requires Collapse(s[1..]) == TrimEnd(s[1..][..i - 1]) + ";" + Collapse(TrimStart(s[1..][i..]))
    ensures Collapse(s) == TrimEnd(s[..i]) + ";" + Collapse(TrimStart(s[i + 1..]))
  {
    var k := SpaceRun(s);
    assert s[k] != ';' && !IsSpace(s[k]);
    CollapseCopy(s);
    var t := s[1..];
    assert t[..i - 1] == s[1..i] && t[i..] == s[i + 1..];
    assert s[..i] == [s[0]] + s[1..i];
    assert !AllSpace(s[..i]) by { assert s[..i][k] == s[k]; }
    TrimEndCons(s[0], s[1..i]);
    var front, back := TrimEnd(s[1..i]), Collapse(TrimStart(s[i + 1..]));
    assert Collapse(s) == [s[0]] + (front + ";" + back);
    assert TrimEnd(s[..i]) == [s[0]] + front;
    Regroup([s[0]], front, ";", back);
  }

  /** The same for a first field `f` followed by `;` and the rest. */
  lemma CollapseField(f: string, rest: string)
    requires ';' !in f
    ensures Collapse(f + ";" + rest) == TrimEnd(f) + ";" + Collapse(TrimStart(rest))
  {
    var s := f + ";" + rest;
    assert s[..|f|] == f && s[|f| + 1..] == rest;
    CollapseAt(s, |f|);
  }

  /** Splitting a text at its first `;`. */
  lemma SplitField(f: string, rest: string)
    requires ';' !in f
    ensures Split(f + ";" + rest) == [f] + Split(rest)
  {
    var s := f + ";" + rest;
    assert s[|f|] == ';';
    var i := IndexOf(s, ';');
    assert i == |f|;
    assert s[..i] == f && s[i + 1..] == rest;
  }

  /** Removing leading whitespace only touches the first field. */
  lemma SplitTrimStart(s: string)
    ensures Split(TrimStart(s)) == [TrimStart(Split(s)[0])] + Split(s)[1..]
  {
    if ';' !in s {
      assert ';' !in TrimStart(s);
    } else {
      var i := IndexOf(s, ';');
      var f, rest := s[..i], s[i + 1..];
      assert s == f + ";" + rest;
      SpaceRunOfField(f, rest);
      SplitField(f, rest);
      var a := SpaceRun(f);
      assert TrimStart(s) == f[a..] + ";" + rest;
      assert ';' !in f[a..];
      SplitField(f[a..], rest);
    }
  }

  /** The substitution followed by the split yields the tidied fields of the
      text: the scanner agrees with the reference meaning. */
  lemma {:induction false} SplitCollapse(s: string)
    ensures Split(Collapse(s)) == Tidy(Split(s))
    decreases |s|
  {
    if ';' !in s {
      CollapseWithoutSemicolon(s);
      assert Tidy([s])[0] == s;
    } else {
      var i := IndexOf(s, ';');
      var f, rest := s[..i], s[i + 1..];
      assert s == f + ";" + rest;
      CollapseField(f, rest);
      TrimEndNoSemicolon(f);
      SplitField(TrimEnd(f), Collapse(TrimStart(rest)));
      SplitCollapse(TrimStart(rest));
      SplitField(f, rest);
      SplitTrimStart(rest);
      TidyCons(f, Split(rest));
    }
  }

  /** Tidying a first field and the rest: the first field loses its trailing
      whitespace and the rest is tidied after its first field loses its
      leading whitespace. */
  lemma TidyCons(f: string, r: seq<string>)
    requires |r| >= 1
    ensures Tidy([f] + r) == [TrimEnd(f)] + Tidy([TrimStart(r[0])] + r[1..])
  {
    var rest := Tidy([TrimStart(r[0])] + r[1..]);
    var lhs, rhs := Tidy([f] + r), [TrimEnd(f)] + rest;
    TidyConsFirst(f, r);
    TidyConsSecond(f, r);
    forall k | 1 < k <= |r| ensures lhs[k] == rest[k - 1] {
      TidyConsLater(f, r, k);
    }
    assert lhs == rhs;
  }

  /** The first field of `[f] + r` loses only its trailing whitespace. */
  lemma TidyConsFirst(f: string, r: seq<string>)
    requires |r| >= 1
    ensures Tidy([f] + r)[0] == TrimEnd(f)
  {
    assert ([f] + r)[0] == f;
  }

  /** The second field of `[f] + r` is tidied as the first of the rest once
      its leading whitespace is gone. */
  lemma TidyConsSecond(f: string, r: seq<string>)
    requires |r| >= 1
    ensures Tidy([f] + r)[1] == Tidy([TrimStart(r[0])] + r[1..])[0]
  {
    if 0 < |r| - 1 {
      TrimCommute(r[0]);
    }
  }

  /** The later fields of `[f] + r` are tidied as in the rest. */
  lemma TidyConsLater(f: string, r: seq<string>, k: nat)
    requires 1 < k <= |r|
    ensures Tidy([f] + r)[k] == Tidy([TrimStart(r[0])] + r[1..])[k - 1]
  {
    assert ([f] + r)[k] == ([TrimStart(r[0])] + r[1..])[k - 1];
  }

  // ---------------------------------------------------------------------
  // Round trips and an example

  /** Splitting and joining again gives back the text. */
  lemma {:induction false} JoinSplit(s: string)
    ensures Join(Split(s)) == s
    decreases |s|
  {
    if ';' in s {
      var i := IndexOf(s, ';');
      var f, rest := s[..i], s[i + 1..];
      var fs := Split(s);
      assert fs == [f] + Split(rest);
      JoinSplit(rest);
      assert Join(fs) == f + ";" + Join(Split(rest)) by {
        assert fs[1..] == Split(rest);
      }
      assert s == f + ";" + rest;
    }
  }

  /** Joining fields free of `;` and splitting again gives back the fields. */
  lemma {:induction false} SplitJoin(fs: seq<string>)
    requires |fs| >= 1
    requires forall k :: 0 <= k < |fs| ==> ';' !in fs[k]
    ensures Split(Join(fs)) == fs
    decreases |fs|
  {
    if |fs| > 1 {
      SplitJoin(fs[1..]);
      assert Join(fs) == fs[0] + ";" + Join(fs[1..]);
      SplitField(fs[0], Join(fs[1..]));
      assert fs == [fs[0]] + fs[1..];
    }
  }

  /** Trailing whitespace added to a string that does not end in whitespace
      is exactly what trimming the end removes. */
  lemma TrimEndPadded(first: string, before: string)
    requires AllSpace(before)
    requires |first| > 0 ==> !IsSpace(first[|first| - 1])
    ensures TrimEnd(first + before) == first
  {
    var f := first + before;
    assert f[|first|..] == before;
    TrimEndUnique(f, |first|);
    assert f[..|first|] == first;
  }

  /** Leading whitespace added to a string that does not start with whitespace
      is exactly what trimming the start removes. */
  lemma TrimStartPadded(after: string, second: string)
    requires AllSpace(after)
    requires |second| > 0 ==> !IsSpace(second[0])
    ensures TrimStart(after + second) == second
  {
    var rest := after + second;
    assert rest[..|after|] == after && rest[|after|..] == second;
    TrimStartUnique(rest, |after|);
  }

  /** Whitespace contains no `;`. */
  lemma PaddedNoSemicolon(first: string, before: string)
    requires ';' !in first && AllSpace(before)
    ensures ';' !in first + before
  {
    var f := first + before;
    forall i | 0 <= i < |f| ensures f[i] != ';' {
      if i >= |first| { assert IsSpace(before[i - |first|]); }
    }
  }

  /** Two subject names around a `;` with any whitespace on either side, as in
      `"Civil Law ; Contracts"`, yield exactly those two names. */
  lemma TwoSubjects(first: string, before: string, after: string, second: string)
    requires ';' !in first && ';' !in second
    requires AllSpace(before) && AllSpace(after)
    requires |first| > 0 ==> !IsSpace(first[|first| - 1])
    requires |second| > 0 ==> !IsSpace(second[0])
    ensures SplitSubject(first + before + ";" + after + second) == [first, second]
  {
    var f, rest := first + before, after + second;
    PaddedNoSemicolon(first, before);
    assert first + before + ";" + after + second == f + ";" + rest;
    CollapseField(f, rest);
    TrimEndPadded(first, before);
    TrimStartPadded(after, second);
    CollapseWithoutSemicolon(second);
    SplitField(first, second);
  }
}
