/**
  The numbered-line extraction of pdfToText.py, once the PDF text is in hand:
  take what follows the first occurrence of a marker, split it on newlines,
  keep the lines that start with a digit, strip their leading number and the
  whitespace after it, and turn a leading dot into a dash.
 */
module PdfText {
  import opened Wrappers
  import opened Text

  // ---------------------------------------------------------------------
  // extract_after_string

  /** The first position at or after `from` where `needle` occurs in `s`. */
  function FindFrom(s: string, needle: string, from: nat): (r: Option<nat>)
    ensures r.Some? ==> from <= r.value && OccursAt(s, needle, r.value)
    ensures r.Some? ==> forall j: nat :: from <= j < r.value ==> !OccursAt(s, needle, j)
    ensures r.None? ==> forall j: nat :: from <= j ==> !OccursAt(s, needle, j)
    decreases |s| - from
  {
    if from + |needle| > |s| then None
    else if s[from..from + |needle|] == needle then Some(from)
    else FindFrom(s, needle, from + 1)
  }

  /** `text == before + marker + after`, and no occurrence of `marker` starts
      inside `before`: the split is at the first occurrence. */
  predicate SplitsAtFirst(text: string, marker: string, before: string, after: string) {
    && text == before + marker + after
    && forall j: nat :: j < |before| ==> !OccursAt(text, marker, j)
  }

  /** `extract_after_string(text, marker)`: the text after the first
      occurrence of the marker, or "" when it does not occur. An empty marker
      makes Python's `split` raise, and that error is not the one caught. */
  function ExtractAfterString(text: string, marker: string): (r: Result<string>)
    ensures r.Failure? <==> marker == ""
    ensures marker != "" && !Contains(text, marker) ==> r == Success("")
    ensures marker != "" && Contains(text, marker) ==>
              r.Success? && |r.value| + |marker| <= |text| &&
              SplitsAtFirst(text, marker, text[..|text| - |r.value| - |marker|], r.value)
  {
    if marker == "" then Failure(EmptySeparator)
    else
      match FindFrom(text, marker, 0)
      case None => Success("")
      case Some(i) =>
        assert text == text[..i] + marker + text[i + |marker|..];
        Success(text[i + |marker|..])
  }

  /** The first-occurrence split is unique: whenever the text is split at the
      first occurrence of the marker, `extract_after_string` returns what follows. */
  lemma ExtractAfterStringComplete(text: string, marker: string, before: string, after: string)
    requires marker != ""
    requires SplitsAtFirst(text, marker, before, after)
    ensures ExtractAfterString(text, marker) == Success(after)
  {
    assert text[|before|..|before| + |marker|] == marker;
    assert OccursAt(text, marker, |before|);
    var r := ExtractAfterString(text, marker);
    var i := |text| - |r.value| - |marker|;
    assert OccursAt(text, marker, i);
    assert text[i + |marker|..] == r.value;
  }

  // ---------------------------------------------------------------------
  // str.split('\n')

  /** `s.split('\n')`: never empty; the empty string gives one empty line. */
  function SplitLines(s: string): (r: seq<string>)
    ensures |r| >= 1
    ensures forall i :: 0 <= i < |r| ==> '\n' !in r[i]
  {
    if s == [] then [""]
    else if s[0] == '\n' then [""] + SplitLines(s[1..])
    else
      var rest := SplitLines(s[1..]);
      [[s[0]] + rest[0]] + rest[1..]
  }

  /** `'\n'.join(lines)`. */
  function JoinLines(lines: seq<string>): string
    requires |lines| >= 1
  {
    if |lines| == 1 then lines[0] else lines[0] + "\n" + JoinLines(lines[1..])
  }

  lemma {:induction false} JoinLinesConsHead(c: char, lines: seq<string>)
    requires |lines| >= 1
    ensures JoinLines([[c] + lines[0]] + lines[1..]) == [c] + JoinLines(lines)
  {
    var head := [c] + lines[0];
    var l := [head] + lines[1..];
    assert |l| == |lines| && l[0] == head && l[1..] == lines[1..];
    if |lines| == 1 {
      assert JoinLines(l) == head;
      assert JoinLines(lines) == lines[0];
    } else {
      var j := JoinLines(lines[1..]);
      assert JoinLines(l) == head + "\n" + j;
      assert JoinLines(lines) == lines[0] + "\n" + j;
      assert head + "\n" + j == [c] + (lines[0] + "\n" + j);
    }
  }

  /** Joining the pieces of a split with newlines gives back the text. */
  lemma {:induction false} JoinSplitLines(s: string)
    ensures JoinLines(SplitLines(s)) == s
  {
    if s != [] {
      JoinSplitLines(s[1..]);
      var rest := SplitLines(s[1..]);
      if s[0] == '\n' {
        assert ([""] + rest)[1..] == rest;
        assert s == "\n" + s[1..];
      } else {
        JoinLinesConsHead(s[0], rest);
        assert s == [s[0]] + s[1..];
      }
    }
  }

  lemma {:induction false} SplitLinesNoNewline(a: string, b: string)
    requires '\n' !in a
    ensures SplitLines(a + b) == [a + SplitLines(b)[0]] + SplitLines(b)[1..]
  {
    if a != [] {
      assert (a + b)[0] == a[0] && (a + b)[1..] == a[1..] + b;
      assert '\n' !in a[1..];
      SplitLinesNoNewline(a[1..], b);
      var inner := SplitLines(a[1..] + b);
      assert inner[0] == a[1..] + SplitLines(b)[0] && inner[1..] == SplitLines(b)[1..];
      assert SplitLines(a + b) == [[a[0]] + inner[0]] + inner[1..];
      assert [a[0]] + (a[1..] + SplitLines(b)[0]) == a + SplitLines(b)[0];
    } else {
      assert a + b == b;
      assert a + SplitLines(b)[0] == SplitLines(b)[0];
      assert SplitLines(b) == [SplitLines(b)[0]] + SplitLines(b)[1..];
    }
  }

  /** Splitting newline-joined lines that hold no newline gives the lines back. */
  lemma {:induction false} SplitJoinLines(lines: seq<string>)
    requires |lines| >= 1
    requires forall i :: 0 <= i < |lines| ==> '\n' !in lines[i]
    ensures SplitLines(JoinLines(lines)) == lines
  {
    if |lines| == 1 {
      SplitLinesNoNewline(lines[0], "");
      assert lines[0] + "" == lines[0];
    } else {
      SplitJoinLines(lines[1..]);
      var tail := "\n" + JoinLines(lines[1..]);
      SplitLinesNoNewline(lines[0], tail);
      assert tail[0] == '\n' && tail[1..] == JoinLines(lines[1..]);
      assert SplitLines(tail) == [""] + lines[1..];
      assert lines[0] + "" == lines[0];
      assert lines[0] + "\n" + JoinLines(lines[1..]) == lines[0] + tail;
      assert lines == [lines[0]] + lines[1..];
    }
  }

  // ---------------------------------------------------------------------
  // filter_lines_starting_with_number

  /** `re.match(r'^\d', line)`. */
  predicate StartsWithDigit(line: string) {
    |line| > 0 && IsDigit(line[0])
  }

  /** The length of the longest prefix of `s` made of digits. */
  function DigitRun(s: string): (n: nat)
    ensures n <= |s|
    ensures forall i :: 0 <= i < n ==> IsDigit(s[i])
    ensures n == |s| || !IsDigit(s[n])
  {
    if s == [] || !IsDigit(s[0]) then 0 else 1 + DigitRun(s[1..])
  }

  /** The length of the longest prefix of `s` made of whitespace. */
  function SpaceRun(s: string): (n: nat)
    ensures n <= |s|
    ensures forall i :: 0 <= i < n ==> IsSpace(s[i])
    ensures n == |s| || !IsSpace(s[n])
  {
    if s == [] || !IsSpace(s[0]) then 0 else 1 + SpaceRun(s[1..])
  }

  /** `line[..k]` is what `^\d+\s*` matches: digits up to `d` and whitespace
      from `d` to `k`, with both runs as long as possible. */
  predicate NumberPrefix(line: string, d: nat, k: nat) {
    && 1 <= d <= k <= |line|
    && (forall i :: 0 <= i < d ==> IsDigit(line[i]))
    && (d == |line| || !IsDigit(line[d]))
    && (forall i :: d <= i < k ==> IsSpace(line[i]))
    && (k == |line| || !IsSpace(line[k]))
  }

  /** The match of `^\d+\s*` is determined by the line. */
  lemma NumberPrefixUnique(line: string, d: nat, k: nat, d': nat, k': nat)
    requires NumberPrefix(line, d, k) && NumberPrefix(line, d', k')
    ensures d == d' && k == k'
  {
  }

  /** `re.sub(r'^\d+\s*', '', line)`: a line without a leading digit is left
      alone; otherwise the leading number and the whitespace after it go. */
  function StripNumber(line: string): (r: string)
    ensures !StartsWithDigit(line) ==> r == line
    ensures StartsWithDigit(line) ==>
              |r| < |line| && NumberPrefix(line, DigitRun(line), |line| - |r|) && r == line[|line| - |r|..]
  {
    if StartsWithDigit(line) then
      var d := DigitRun(line);
      var w := SpaceRun(line[d..]);
      line[d + w..]
    else line
  }

  /** `re.sub(r'^\.', '-', s)`. */
  function DotToDash(s: string): string {
    if |s| > 0 && s[0] == '.' then "-" + s[1..] else s
  }

  /** One kept line rewritten: its number stripped and a leading dot, the
      first character only, turned into a dash. */
  function RewriteLine(line: string): (r: string)
    ensures !(|r| > 0 && r[0] == '.')
    ensures |r| == |StripNumber(line)|
    ensures |r| > 0 ==> r[1..] == StripNumber(line)[1..]
    ensures |r| > 0 && StripNumber(line)[0] == '.' ==> r[0] == '-'
    ensures |r| > 0 && StripNumber(line)[0] != '.' ==> r[0] == StripNumber(line)[0]
  {
    DotToDash(StripNumber(line))
  }

  /** The reference for the filter: the lines that start with a digit, each
      rewritten, in order. */
  function NumberedLines(lines: seq<string>): (r: seq<string>)
    ensures |r| <= |lines|
    ensures forall i :: 0 <= i < |r| ==> !(|r[i]| > 0 && r[i][0] == '.')
  {
    if lines == [] then []
    else if StartsWithDigit(lines[0]) then [RewriteLine(lines[0])] + NumberedLines(lines[1..])
    else NumberedLines(lines[1..])
  }

  lemma {:induction false} NumberedLinesAppend(a: seq<string>, b: seq<string>)
    ensures NumberedLines(a + b) == NumberedLines(a) + NumberedLines(b)
  {
    if a == [] {
      assert a + b == b;
    } else {
      assert (a + b)[0] == a[0] && (a + b)[1..] == a[1..] + b;
      NumberedLinesAppend(a[1..], b);
    }
  }

  /** The number of lines a list of lines holds that start with a digit. */
  function CountDigitLines(lines: seq<string>): nat {
    if lines == [] then 0
    else (if StartsWithDigit(lines[0]) then 1 else 0) + CountDigitLines(lines[1..])
  }

  /** There is one output line per input line that starts with a digit; empty lines are dropped. */
  lemma {:induction false} NumberedLinesCount(lines: seq<string>)
    ensures |NumberedLines(lines)| == CountDigitLines(lines)
  {
    if lines != [] {
      NumberedLinesCount(lines[1..]);
    }
  }

  /** `x` is the rewrite of some line of `lines` that starts with a digit. */
  predicate IsRewriteOf(lines: seq<string>, x: string) {
    exists l :: l in lines && StartsWithDigit(l) && x == RewriteLine(l)
  }

  /** A line is in the output exactly when it is the rewrite of an input line that starts with a digit. */
  lemma {:induction false} NumberedLinesMembership(lines: seq<string>, x: string)
    ensures x in NumberedLines(lines) <==> IsRewriteOf(lines, x)
  {
    if lines != [] {
      NumberedLinesMembership(lines[1..], x);
      var rest := NumberedLines(lines[1..]);
      assert forall l :: l in lines <==> l == lines[0] || l in lines[1..];
      if StartsWithDigit(lines[0]) {
        assert NumberedLines(lines) == [RewriteLine(lines[0])] + rest;
        assert x in NumberedLines(lines) <==> x == RewriteLine(lines[0]) || x in rest;
      }
      assert IsRewriteOf(lines, x) <==>
               (StartsWithDigit(lines[0]) && x == RewriteLine(lines[0])) || IsRewriteOf(lines[1..], x);
    }
  }

  /** One more line read extends the filter's output by that line's rewrite, if it is kept. */
  lemma FilterStep(lines: seq<string>, i: nat)
    requires i < |lines|
    ensures NumberedLines(lines[..i + 1])
         == NumberedLines(lines[..i]) + (if StartsWithDigit(lines[i]) then [RewriteLine(lines[i])] else [])
  {
    assert lines[..i + 1] == lines[..i] + [lines[i]];
    NumberedLinesAppend(lines[..i], [lines[i]]);
  }

  /** `filter_lines_starting_with_number(lines)`: the source's loop, which
      appends each rewritten digit line to the result. */
  method FilterLinesStartingWithNumber(lines: seq<string>) returns (filtered: seq<string>)
    ensures filtered == NumberedLines(lines)
    ensures |filtered| <= |lines|
    ensures forall j :: 0 <= j < |filtered| ==> !(|filtered[j]| > 0 && filtered[j][0] == '.')
  {
    filtered := [];
    var i := 0;
    while i < |lines|
      invariant 0 <= i <= |lines|
      invariant filtered == NumberedLines(lines[..i])
    {
      var line := lines[i];
      FilterStep(lines, i);
      if StartsWithDigit(line) {
        var stripped := StripNumber(line);
        var rewritten := DotToDash(stripped);
        filtered := filtered + [rewritten];
      }
      i := i + 1;
    }
    assert lines[..i] == lines;
  }

  /** The pipeline of `extract_lines_starting_with_number_after_string` between
      reading the PDF and writing the result: extract, split on newlines, filter. */
  method ExtractLinesStartingWithNumberAfterString(text: string, marker: string)
    returns (r: Result<seq<string>>)
    ensures r.Failure? <==> marker == ""
    ensures r.Success? ==> r.value == NumberedLines(SplitLines(ExtractAfterString(text, marker).value))
    ensures marker != "" && !Contains(text, marker) ==> r == Success([])
    ensures r.Success? ==> forall i :: 0 <= i < |r.value| ==> !(|r.value[i]| > 0 && r.value[i][0] == '.')
  {
    var extracted := ExtractAfterString(text, marker);
    if extracted.Failure? {
      return Failure(extracted.error);
    }
    var lines := SplitLines(extracted.value);
    var filtered := FilterLinesStartingWithNumber(lines);
    return Success(filtered);
  }
}
