/**
  The rubric parser (`get_soup_details` and `truncate_string`) of main.py,
  mainv2.py and mainv3.py, after the HTML has been queried: its inputs are the
  stripped texts of the criterion-description spans in document order, the
  stripped text of the `<title>` tag when one exists, the rubric file name and
  the truncation length.

  The three scripts differ in one place only: main.py removes spaces from the
  file stem, mainv2.py and mainv3.py only lowercase it. That choice is the
  `stripSpaces` parameter.
 */
module Rubric {
  import opened Wrappers
  import opened Text

  /** The placeholder text the rubric tool writes for an empty criterion. */
  const BadSpanText: string := "Description of criterion"

  /** What a truncated section ends with. */
  const Ellipsis: string := "..."

  /** The record `get_soup_details` returns. */
  datatype SoupDetails = SoupDetails(title: string, sections: seq<string>, fileEnding: string)

  /** Python's `s[:k]`: a negative `k` counts from the end, and the bound is clamped to the string. */
  function SliceTo(s: string, k: int): (r: string)
    ensures |r| <= |s| && r == s[..|r|]
    ensures 0 <= k <= |s| ==> |r| == k
    ensures k < 0 ==> |r| == (if |s| + k < 0 then 0 else |s| + k)
  {
    if k >= 0 then s[..if k <= |s| then k else |s|]
    else s[..if |s| + k >= 0 then |s| + k else 0]
  }

  /** `truncate_string(s, length)`. For a positive length a cut string keeps
      its first `length - 1` characters and gains the three-character ellipsis,
      so it is `length + 2` characters long. A length below one is taken as
      Python takes it: `s[:-1]` drops the last character, and so on. */
  function Truncate(s: string, length: int): (r: string)
    ensures |s| <= length ==> r == s
    ensures |s| > length ==> EndsWith(r, Ellipsis)
    ensures |s| > length && length >= 1 ==> |r| == length + 2 && r[..length - 1] == s[..length - 1]
    ensures |s| > length && length < 1 ==> |r| == 3 + (if |s| + length - 1 < 0 then 0 else |s| + length - 1)
    ensures |s| > length ==> 3 <= |r| <= |s| + 3 && r[..|r| - 3] == s[..|r| - 3]
  {
    if |s| > length then SliceTo(s, length - 1) + Ellipsis else s
  }

  /** No truncation of a kept text can produce the placeholder: an untouched
      text is not the placeholder, and a cut one ends in an ellipsis, which the
      placeholder does not. */
  lemma TruncateNeverPlaceholder(s: string, length: int)
    requires s != BadSpanText
    ensures Truncate(s, length) != BadSpanText
  {
    if |s| > length {
      var r := Truncate(s, length);
      assert !EndsWith(BadSpanText, Ellipsis) by {
        assert BadSpanText[|BadSpanText| - 1] == 'n';
      }
      assert r[|r| - 3..] == Ellipsis;
    }
  }

  /** The span texts that are not the placeholder, in document order. */
  function KeptSpans(spans: seq<string>): (r: seq<string>)
    ensures multiset(r) == multiset(spans)[BadSpanText := 0]
    ensures |r| == |spans| - multiset(spans)[BadSpanText]
  {
    if spans == [] then []
    else
      assert spans == [spans[0]] + spans[1..];
      if spans[0] == BadSpanText then KeptSpans(spans[1..])
      else [spans[0]] + KeptSpans(spans[1..])
  }

  /** Keeping spans distributes over concatenation, so their order is preserved. */
  lemma {:induction false} KeptSpansAppend(a: seq<string>, b: seq<string>)
    ensures KeptSpans(a + b) == KeptSpans(a) + KeptSpans(b)
  {
    if a != [] {
      assert (a + b)[0] == a[0] && (a + b)[1..] == a[1..] + b;
      KeptSpansAppend(a[1..], b);
    } else {
      assert a + b == b;
    }
  }

  /** `truncate_string` applied to every text, positions unchanged. */
  function TruncateAll(texts: seq<string>, length: int): (r: seq<string>)
    ensures |r| == |texts|
    ensures forall i :: 0 <= i < |texts| ==> r[i] == Truncate(texts[i], length)
  {
    if texts == [] then []
    else [Truncate(texts[0], length)] + TruncateAll(texts[1..], length)
  }

  /** The list comprehension of mainv3.py: each span text that is not the
      placeholder, truncated, in document order. */
  function SectionsComprehension(spans: seq<string>, length: int): (r: seq<string>)
    ensures |r| <= |spans|
    ensures BadSpanText !in r
  {
    if spans == [] then []
    else if spans[0] != BadSpanText then
      TruncateNeverPlaceholder(spans[0], length);
      [Truncate(spans[0], length)] + SectionsComprehension(spans[1..], length)
    else SectionsComprehension(spans[1..], length)
  }

  /** The comprehension is the same list as dropping the placeholder first and
      truncating what is left second. */
  lemma {:induction false} ComprehensionIsFilterThenMap(spans: seq<string>, length: int)
    ensures SectionsComprehension(spans, length) == TruncateAll(KeptSpans(spans), length)
  {
    if spans != [] {
      ComprehensionIsFilterThenMap(spans[1..], length);
    }
  }

  /** There are as many sections as spans other than the placeholder, and none is the placeholder. */
  lemma SectionsCount(spans: seq<string>, length: int)
    ensures |SectionsComprehension(spans, length)| == |spans| - multiset(spans)[BadSpanText]
    ensures BadSpanText !in SectionsComprehension(spans, length)
  {
    ComprehensionIsFilterThenMap(spans, length);
  }

  lemma {:induction false} ComprehensionAppend(a: seq<string>, b: seq<string>, length: int)
    ensures SectionsComprehension(a + b, length) == SectionsComprehension(a, length) + SectionsComprehension(b, length)
  {
    if a != [] {
      assert (a + b)[0] == a[0] && (a + b)[1..] == a[1..] + b;
      ComprehensionAppend(a[1..], b, length);
    } else {
      assert a + b == b;
    }
  }

  /** One more span adds its truncated text to the comprehension, unless it is the placeholder. */
  lemma ComprehensionStep(spans: seq<string>, i: nat, length: int)
    requires i < |spans|
    ensures SectionsComprehension(spans[..i + 1], length)
         == SectionsComprehension(spans[..i], length)
            + (if spans[i] != BadSpanText then [Truncate(spans[i], length)] else [])
  {
    assert spans[..i + 1] == spans[..i] + [spans[i]];
    ComprehensionAppend(spans[..i], [spans[i]], length);
  }

  /** `name.split('.')[0]`: the part of the file name before its first dot. */
  function Stem(name: string): (r: string)
    ensures StartsWith(name, r)
    ensures '.' !in r
    ensures |r| == |name| || name[|r|] == '.'
  {
    if name == [] || name[0] == '.' then []
    else
      assert name == [name[0]] + name[1..];
      [name[0]] + Stem(name[1..])
  }

  /** The identifier derived from the rubric file name: its stem, with spaces
      removed when `stripSpaces` (main.py), lowercased. */
  function FileEnding(stripSpaces: bool, rubricFile: string): (r: string)
    ensures '.' !in r
    ensures forall i :: 0 <= i < |r| ==> !IsUpper(r[i])
    ensures stripSpaces ==> ' ' !in r
    ensures !stripSpaces ==> StartsWith(Lower(rubricFile), r) && (|r| == |rubricFile| || rubricFile[|r|] == '.')
  {
    var stem := Stem(rubricFile);
    RemoveSpacesAbsent(stem, '.');
    LowerAbsent(stem, '.');
    LowerAbsent(RemoveSpaces(stem), '.');
    LowerAbsent(RemoveSpaces(stem), ' ');
    if stripSpaces then Lower(RemoveSpaces(stem)) else Lower(stem)
  }

  /** The two ways of deriving the identifier: main.py's is mainv2.py's with
      the spaces removed, and the two agree exactly when the stem has no space. */
  lemma FileEndingVariants(rubricFile: string)
    ensures FileEnding(true, rubricFile) == RemoveSpaces(FileEnding(false, rubricFile))
    ensures FileEnding(true, rubricFile) == FileEnding(false, rubricFile) <==> ' ' !in Stem(rubricFile)
  {
    var stem := Stem(rubricFile);
    LowerRemoveSpacesCommute(stem);
    if ' ' in stem {
      var i :| 0 <= i < |stem| && stem[i] == ' ';
      assert FileEnding(false, rubricFile)[i] == ' ';
    } else {
      RemoveSpacesNoSpace(stem);
    }
  }

  /** The document title: the `<title>` text whenever the tag exists, even
      when that text is empty; otherwise the same stem-derived identifier as
      the file ending. */
  function ResolveTitle(titleTag: Option<string>, stripSpaces: bool, rubricFile: string): string {
    match titleTag
    case Some(text) => text
    case None => FileEnding(stripSpaces, rubricFile)
  }

  /** `get_soup_details` in mainv3.py's form: a conditional title, a
      comprehension for the sections, and the file ending; `stripSpaces`
      selects main.py's stem. */
  function GetSoupDetails(stripSpaces: bool, spanTexts: seq<string>, titleTag: Option<string>,
                          rubricFile: string, truncateLength: int): (d: SoupDetails)
    ensures titleTag.Some? ==> d.title == titleTag.value
    ensures titleTag.None? ==> d.title == d.fileEnding
    ensures d.fileEnding == FileEnding(stripSpaces, rubricFile)
    ensures d.sections == TruncateAll(KeptSpans(spanTexts), truncateLength)
  {
    ComprehensionIsFilterThenMap(spanTexts, truncateLength);
    SoupDetails(ResolveTitle(titleTag, stripSpaces, rubricFile),
                SectionsComprehension(spanTexts, truncateLength),
                FileEnding(stripSpaces, rubricFile))
  }

  /** `get_soup_details` in the form of main.py and mainv2.py: the record
      starts empty, the title is set by an if/else, the sections are appended
      one span at a time, and the file ending is set last. It yields the same
      record as the comprehension form. */
  method GetSoupDetailsByLoop(stripSpaces: bool, spanTexts: seq<string>, titleTag: Option<string>,
                              rubricFile: string, truncateLength: int) returns (d: SoupDetails)
    ensures d == GetSoupDetails(stripSpaces, spanTexts, titleTag, rubricFile, truncateLength)
  {
    d := SoupDetails("", [], "");
    if titleTag.Some? {
      d := d.(title := titleTag.value);
    } else {
      d := d.(title := FileEnding(stripSpaces, rubricFile));
    }
    var i := 0;
    while i < |spanTexts|
      invariant 0 <= i <= |spanTexts|
      invariant d.title == ResolveTitle(titleTag, stripSpaces, rubricFile)
      invariant d.sections == SectionsComprehension(spanTexts[..i], truncateLength)
    {
      var txt := spanTexts[i];
      ComprehensionStep(spanTexts, i, truncateLength);
      if txt != BadSpanText {
        var truncated := Truncate(txt, truncateLength);
        d := d.(sections := d.sections + [truncated]);
      }
      i := i + 1;
    }
    assert spanTexts[..i] == spanTexts;
    d := d.(fileEnding := FileEnding(stripSpaces, rubricFile));
  }

  /** The variants differ only through the stem: their sections always agree,
      their titles agree whenever a `<title>` tag exists, and title and file
      ending agree exactly when the stem has no space. */
  lemma VariantsAgree(spanTexts: seq<string>, titleTag: Option<string>, rubricFile: string, truncateLength: int)
    ensures GetSoupDetails(true, spanTexts, titleTag, rubricFile, truncateLength).sections
         == GetSoupDetails(false, spanTexts, titleTag, rubricFile, truncateLength).sections
    ensures titleTag.Some? ==>
              (GetSoupDetails(true, spanTexts, titleTag, rubricFile, truncateLength).title
               == GetSoupDetails(false, spanTexts, titleTag, rubricFile, truncateLength).title)
    ensures GetSoupDetails(true, spanTexts, titleTag, rubricFile, truncateLength).fileEnding
         == GetSoupDetails(false, spanTexts, titleTag, rubricFile, truncateLength).fileEnding
        <==> ' ' !in Stem(rubricFile)
    ensures GetSoupDetails(true, spanTexts, titleTag, rubricFile, truncateLength)
         == GetSoupDetails(false, spanTexts, titleTag, rubricFile, truncateLength)
        <==> ' ' !in Stem(rubricFile)
  {
    FileEndingVariants(rubricFile);
  }
}
