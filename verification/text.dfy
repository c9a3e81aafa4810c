/**
  ASCII character classes and the Python `str` operations the scripts use:
  `lower()`, `replace(" ", "")`, `startswith`, `endswith` and `split(sep)`.
  Unicode case mapping and Unicode digits/whitespace are not modelled.
 */
module Text {

  /** Python's `\d`, restricted to ASCII. */
  predicate IsDigit(c: char) {
    '0' <= c <= '9'
  }

  /** Python's `\s` in a `str` pattern, restricted to ASCII: space, tab,
      newline, vertical tab, form feed, carriage return, and the four
      separators `\x1c` to `\x1f` that `str.isspace()` also accepts. */
  predicate IsSpace(c: char) {
    c == ' ' || '\t' <= c <= '\r' || '\U{001C}' <= c <= '\U{001F}'
  }

  predicate IsUpper(c: char) {
    'A' <= c <= 'Z'
  }

  /** `c.lower()` on an ASCII letter; every other character is left alone. */
  function LowerChar(c: char): (r: char)
    ensures !IsUpper(r)
    ensures !IsUpper(c) ==> r == c
    ensures IsUpper(c) ==> 'a' <= r <= 'z'
  {
    if IsUpper(c) then (c as int + 32) as char else c
  }

  /** `s.lower()`: the same characters, each lowered, in place. */
  function Lower(s: string): (r: string)
    ensures |r| == |s|
    ensures forall i :: 0 <= i < |s| ==> r[i] == LowerChar(s[i])
    ensures forall i :: 0 <= i < |r| ==> !IsUpper(r[i])
  {
    if s == [] then [] else [LowerChar(s[0])] + Lower(s[1..])
  }

  /** `s.replace(" ", "")`: every space dropped, every other character kept in order. */
  function RemoveSpaces(s: string): (r: string)
    ensures ' ' !in r
    ensures |r| <= |s|
    ensures forall c :: c != ' ' ==> multiset(r)[c] == multiset(s)[c]
  {
    if s == [] then []
    else
      assert s == [s[0]] + s[1..];
      if s[0] == ' ' then RemoveSpaces(s[1..]) else [s[0]] + RemoveSpaces(s[1..])
  }

  /** A string without spaces is its own `replace(" ", "")`. */
  lemma {:induction false} RemoveSpacesNoSpace(s: string)
    requires ' ' !in s
    ensures RemoveSpaces(s) == s
  {
    if s != [] {
      assert s[0] != ' ';
      assert ' ' !in s[1..];
      RemoveSpacesNoSpace(s[1..]);
      assert s == [s[0]] + s[1..];
    }
  }

  /** Removing spaces distributes over concatenation, so the kept characters stay in order. */
  lemma {:induction false} RemoveSpacesAppend(a: string, b: string)
    ensures RemoveSpaces(a + b) == RemoveSpaces(a) + RemoveSpaces(b)
  {
    if a == [] {
      assert a + b == b;
    } else {
      assert (a + b)[0] == a[0] && (a + b)[1..] == a[1..] + b;
      RemoveSpacesAppend(a[1..], b);
      if a[0] != ' ' {
        assert [a[0]] + RemoveSpaces(a[1..]) + RemoveSpaces(b) == [a[0]] + (RemoveSpaces(a[1..]) + RemoveSpaces(b));
      }
    }
  }

  /** Lowering and removing spaces commute, so the order in which a script applies them does not matter. */
  lemma {:induction false} LowerRemoveSpacesCommute(s: string)
    ensures Lower(RemoveSpaces(s)) == RemoveSpaces(Lower(s))
  {
    if s != [] {
      var t := s[1..];
      LowerRemoveSpacesCommute(t);
      var ls := Lower(s);
      assert ls == [LowerChar(s[0])] + Lower(t);
      assert ls[0] == LowerChar(s[0]) && ls[1..] == Lower(t);
      if s[0] == ' ' {
        assert RemoveSpaces(s) == RemoveSpaces(t);
        assert RemoveSpaces(ls) == RemoveSpaces(Lower(t));
      } else {
        var rt := RemoveSpaces(t);
        assert RemoveSpaces(s) == [s[0]] + rt;
        assert ([s[0]] + rt)[0] == s[0] && ([s[0]] + rt)[1..] == rt;
        assert Lower([s[0]] + rt) == [LowerChar(s[0])] + Lower(rt);
        assert RemoveSpaces(ls) == [LowerChar(s[0])] + RemoveSpaces(Lower(t));
      }
    }
  }

  /** Lowering never introduces a character that is not a lower-case letter. */
  lemma LowerAbsent(s: string, c: char)
    requires c !in s && !('a' <= c <= 'z')
    ensures c !in Lower(s)
  {
  }

  /** Removing spaces never introduces a character. */
  lemma RemoveSpacesAbsent(s: string, c: char)
    requires c !in s
    ensures c !in RemoveSpaces(s)
  {
  }

  predicate StartsWith(s: string, prefix: string) {
    |prefix| <= |s| && s[..|prefix|] == prefix
  }

  predicate EndsWith(s: string, suffix: string) {
    |suffix| <= |s| && s[|s| - |suffix|..] == suffix
  }

  /** A suffix of a suffix is a suffix. */
  lemma EndsWithTransitive(s: string, t: string, u: string)
    requires EndsWith(s, t) && EndsWith(t, u)
    ensures EndsWith(s, u)
  {
    assert s[|s| - |u|..] == s[|s| - |t|..][|t| - |u|..];
  }

  /** `needle` occurs in `s` starting at position `i`. */
  predicate OccursAt(s: string, needle: string, i: nat) {
    i + |needle| <= |s| && s[i..i + |needle|] == needle
  }

  /** Python's `needle in s`. */
  predicate Contains(s: string, needle: string) {
    exists i: nat | i <= |s| :: OccursAt(s, needle, i)
  }
}
