/** The handful of Python `str` operations the generator relies on:
    `strip`, `title`, `upper`, `lower`, `startswith`, `join` and
    `split("\n")`. `strip` is related to the slice it keeps, `title` to the
    words of its argument, `upper` and `lower` to the case they leave, and
    `join` with newlines to `split`, which takes it apart again;
    `startswith` is the plain prefix test.
 */
module Text {

  /** Python's `str.isspace`, which `str.strip()` uses to decide what to drop. */
  predicate IsSpace(c: char) {
    || c == ' '
    || ('\t' <= c <= '\r')
    || ('\U{1C}' <= c <= '\U{1F}')
    || c == '\U{85}' || c == '\U{A0}' || c == '\U{1680}'
    || ('\U{2000}' <= c <= '\U{200A}')
    || c == '\U{2028}' || c == '\U{2029}' || c == '\U{202F}'
    || c == '\U{205F}' || c == '\U{3000}'
  }

  /** The length of the white space `s` starts with. */
  function LeadingSpaces(s: string): (n: nat)
    ensures n <= |s|
    ensures forall k :: 0 <= k < n ==> IsSpace(s[k])
    ensures n == |s| || !IsSpace(s[n])
  {
    if s != [] && IsSpace(s[0]) then 1 + LeadingSpaces(s[1..]) else 0
  }

  /** The length of the white space `s` ends with. */
  function TrailingSpaces(s: string): (n: nat)
    ensures n <= |s|
    ensures forall k :: |s| - n <= k < |s| ==> IsSpace(s[k])
    ensures n == |s| || !IsSpace(s[|s| - n - 1])
  {
    if s != [] && IsSpace(s[|s| - 1]) then 1 + TrailingSpaces(s[..|s| - 1]) else 0
  }

  /** `s.lstrip()`. */
  function StripLeft(s: string): string {
    s[LeadingSpaces(s)..]
  }

  /** `s.rstrip()`. */
  function StripRight(s: string): string {
    s[..|s| - TrailingSpaces(s)]
  }

  /** `r` is `s` with white space trimmed from both ends: it is the slice of
      `s` starting at `i`, and only white space lies outside that slice. */
  predicate TrimmedAt(s: string, r: string, i: nat) {
    && i + |r| <= |s|
    && (forall k :: 0 <= k < |r| ==> r[k] == s[i + k])
    && (forall k :: 0 <= k < i ==> IsSpace(s[k]))
    && (forall k :: i + |r| <= k < |s| ==> IsSpace(s[k]))
  }

  /** `s.strip()`: neither starts nor ends with white space. */
  function Strip(s: string): (r: string)
    ensures r == [] || (!IsSpace(r[0]) && !IsSpace(r[|r| - 1]))
  {
    var left := StripLeft(s);
    var r := StripRight(left);
    assert r != [] ==> r[0] == left[0] == s[LeadingSpaces(s)];
    r
  }

  /** `strip` keeps a slice of `s` and drops only white space around it. */
  lemma StripTrims(s: string)
    ensures TrimmedAt(s, Strip(s), LeadingSpaces(s))
  {
    var i := LeadingSpaces(s);
    var left := StripLeft(s);
    var r := Strip(s);
    forall k | 0 <= k < |r|
      ensures r[k] == s[i + k]
    {
      assert r[k] == left[k];
    }
    forall k | i + |r| <= k < |s|
      ensures IsSpace(s[k])
    {
      assert s[k] == left[k - i];
    }
  }

  /** Stripping twice is stripping once. */
  lemma StripIdempotent(s: string)
    ensures Strip(Strip(s)) == Strip(s)
  {
    var r := Strip(s);
    assert LeadingSpaces(r) == 0;
    assert StripLeft(r) == r;
    assert TrailingSpaces(r) == 0;
  }

  /** Every character that is not white space survives `strip`. */
  lemma StripKeepsInnerText(s: string, k: nat)
    requires k < |s| && !IsSpace(s[k])
    ensures s[k] in Strip(s)
  {
    var r := Strip(s);
    StripTrims(s);
    var i := LeadingSpaces(s);
    assert i <= k < i + |r|;
    assert r[k - i] == s[k];
  }

  predicate IsUpperAscii(c: char) { 'A' <= c <= 'Z' }

  predicate IsLowerAscii(c: char) { 'a' <= c <= 'z' }

  /** The characters `str.title` treats as cased, restricted to ASCII. */
  predicate IsLetter(c: char) { IsUpperAscii(c) || IsLowerAscii(c) }

  function UpperChar(c: char): char {
    if IsLowerAscii(c) then (c as int - 32) as char else c
  }

  function LowerChar(c: char): char {
    if IsUpperAscii(c) then (c as int + 32) as char else c
  }

  /** `s.upper()` on ASCII text: the same letters, none of them lower-case. */
  function Upper(s: string): (r: string)
    ensures |r| == |s|
    ensures forall k :: 0 <= k < |s| ==> r[k] == UpperChar(s[k])
    ensures forall k :: 0 <= k < |s| ==> !IsLowerAscii(r[k]) && LowerChar(r[k]) == LowerChar(s[k])
  {
    seq(|s|, k requires 0 <= k < |s| => UpperChar(s[k]))
  }

  /** `s.lower()` on ASCII text: the same letters, none of them upper-case. */
  function Lower(s: string): (r: string)
    ensures |r| == |s|
    ensures forall k :: 0 <= k < |s| ==> r[k] == LowerChar(s[k])
    ensures forall k :: 0 <= k < |s| ==> !IsUpperAscii(r[k]) && UpperChar(r[k]) == UpperChar(s[k])
  {
    seq(|s|, k requires 0 <= k < |s| => LowerChar(s[k]))
  }

  /** No lower-case letter is left after `upper`, and a second `upper` changes nothing. */
  lemma UpperIdempotent(s: string)
    ensures forall k :: 0 <= k < |s| ==> !IsLowerAscii(Upper(s)[k])
    ensures Upper(Upper(s)) == Upper(s)
  {
  }

  /** The scan behind `s.title()`: a letter is upper-cased when the character
      before it is not a letter and lower-cased when it is; every other
      character is copied. `afterLetter` says whether the character just
      before `s` was a letter. */
  function TitleFrom(s: string, afterLetter: bool): (r: string)
    ensures |r| == |s|
  {
    if s == [] then []
    else
      var c := s[0];
      var c' := if afterLetter then LowerChar(c) else UpperChar(c);
      [c'] + TitleFrom(s[1..], IsLetter(c))
  }

  /** Whether position `k` of `s` starts a word in the sense of `title`. */
  predicate StartsWord(s: string, k: nat)
    requires k < |s|
  {
    k == 0 || !IsLetter(s[k - 1])
  }

  lemma {:induction false} TitleFromAt(s: string, afterLetter: bool, k: nat)
    requires k < |s|
    ensures TitleFrom(s, afterLetter)[k]
      == if (if k == 0 then afterLetter else IsLetter(s[k - 1]))
         then LowerChar(s[k]) else UpperChar(s[k])
  {
    if k > 0 {
      TitleFromAt(s[1..], IsLetter(s[0]), k - 1);
    }
  }

  /** `s.title()`: position by position, the first letter of every run of
      letters is upper-cased and the others are lower-cased. */
  function Title(s: string): (r: string)
    ensures |r| == |s|
    ensures forall k :: 0 <= k < |s| ==> r[k] == if StartsWord(s, k) then UpperChar(s[k]) else LowerChar(s[k])
  {
    assert forall k :: 0 <= k < |s| ==> TitleFrom(s, false)[k] == if StartsWord(s, k) then UpperChar(s[k]) else LowerChar(s[k]) by {
      forall k | 0 <= k < |s| {
        TitleFromAt(s, false, k);
      }
    }
    TitleFrom(s, false)
  }

  /** `title` is idempotent. */
  lemma TitleIdempotent(s: string)
    ensures Title(Title(s)) == Title(s)
  {
    var t := Title(s);
    forall k | 0 <= k < |s|
      ensures Title(t)[k] == t[k]
    {
      if k > 0 {
        assert IsLetter(t[k - 1]) == IsLetter(s[k - 1]);
      }
    }
  }

  /** `"for".title() == "For"`: a word of lower-case letters gets its first
      letter upper-cased and keeps the rest. */
  lemma TitleOfLowerWord(s: string)
    requires s != [] && forall k :: 0 <= k < |s| ==> IsLowerAscii(s[k])
    ensures Title(s) == [UpperChar(s[0])] + s[1..]
  {
    assert forall k :: 0 <= k < |s| ==> Title(s)[k] == ([UpperChar(s[0])] + s[1..])[k];
  }

  /** `s.startswith(p)`. */
  predicate StartsWith(s: string, p: string) {
    |p| <= |s| && s[..|p|] == p
  }

  /** `sep.join(parts)`. */
  function Join(sep: string, parts: seq<string>): (r: string)
    ensures |parts| == 1 ==> r == parts[0]
  {
    if |parts| == 0 then ""
    else if |parts| == 1 then parts[0]
    else parts[0] + sep + Join(sep, parts[1..])
  }

  function TotalLength(parts: seq<string>): nat {
    if parts == [] then 0 else |parts[0]| + TotalLength(parts[1..])
  }

  /** Where part `i` starts in `sep.join(parts)`: after the `i` parts
      before it and one separator for each of them. */
  function PartStart(sep: string, parts: seq<string>, i: nat): nat
    requires i <= |parts|
  {
    TotalLength(parts[..i]) + i * |sep|
  }

  lemma PartStartNext(sep: string, parts: seq<string>, i: nat)
    requires 0 < i <= |parts|
    ensures PartStart(sep, parts, i) == |parts[0]| + |sep| + PartStart(sep, parts[1..], i - 1)
  {
    assert parts[..i][1..] == parts[1..][..i - 1];
    assert i * |sep| == |sep| + (i - 1) * |sep|;
  }

  /** `sep.join(parts)` is as long as the parts plus one separator between
      each two of them. */
  lemma {:induction false} JoinLength(sep: string, parts: seq<string>)
    requires parts != []
    ensures |Join(sep, parts)| == TotalLength(parts) + (|parts| - 1) * |sep|
    decreases |parts|
  {
    if |parts| > 1 {
      JoinLength(sep, parts[1..]);
      assert (|parts| - 1) * |sep| == |sep| + (|parts| - 2) * |sep|;
    }
  }

  /** Part `i` of `sep.join(parts)` sits unchanged at `PartStart`. */
  lemma {:induction false} JoinPart(sep: string, parts: seq<string>, i: nat)
    requires i < |parts|
    ensures PartStart(sep, parts, i) + |parts[i]| <= |Join(sep, parts)|
    ensures Join(sep, parts)[PartStart(sep, parts, i)..PartStart(sep, parts, i) + |parts[i]|] == parts[i]
    decreases i
  {
    var r := Join(sep, parts);
    if i == 0 {
      assert PartStart(sep, parts, 0) == 0 by { assert parts[..0] == []; }
      if |parts| > 1 {
        assert r == parts[0] + (sep + Join(sep, parts[1..]));
      }
    } else {
      var head := parts[0] + sep;
      var rest := Join(sep, parts[1..]);
      assert r == head + rest;
      PartStartNext(sep, parts, i);
      JoinPart(sep, parts[1..], i - 1);
      assert parts[1..][i - 1] == parts[i];
      var a := PartStart(sep, parts[1..], i - 1);
      assert r[|head| + a..|head| + a + |parts[i]|] == rest[a..a + |parts[i]|];
    }
  }

  /** The separator sits between part `i` and part `i + 1`, and nothing
      else does. */
  lemma {:induction false} JoinSeparator(sep: string, parts: seq<string>, i: nat)
    requires i + 1 < |parts|
    ensures PartStart(sep, parts, i) + |parts[i]| + |sep| == PartStart(sep, parts, i + 1)
    ensures PartStart(sep, parts, i + 1) <= |Join(sep, parts)|
    ensures Join(sep, parts)[PartStart(sep, parts, i) + |parts[i]|..PartStart(sep, parts, i + 1)] == sep
    decreases i
  {
    var r := Join(sep, parts);
    var head := parts[0] + sep;
    var rest := Join(sep, parts[1..]);
    assert r == head + rest;
    PartStartNext(sep, parts, i + 1);
    if i == 0 {
      assert PartStart(sep, parts, 0) == 0 by { assert parts[..0] == []; }
      assert PartStart(sep, parts[1..], 0) == 0 by { assert parts[1..][..0] == []; }
      assert r[|parts[0]|..|head|] == sep;
    } else {
      PartStartNext(sep, parts, i);
      JoinSeparator(sep, parts[1..], i - 1);
      assert parts[1..][i - 1] == parts[i];
      var a := PartStart(sep, parts[1..], i - 1) + |parts[i]|;
      var b := PartStart(sep, parts[1..], i);
      assert r[|head| + a..|head| + b] == rest[a..b];
    }
  }

  /** `s.split("\n")`: the pieces between newlines, always at least one. */
  function SplitLines(s: string): (r: seq<string>)
    ensures |r| >= 1
  {
    if s == [] then [""]
    else
      var rest := SplitLines(s[1..]);
      if s[0] == '\n' then [""] + rest
      else [[s[0]] + rest[0]] + rest[1..]
  }

  lemma {:induction false} SplitLinesNoNewline(s: string)
    requires '\n' !in s
    ensures SplitLines(s) == [s]
  {
    if s != [] {
      assert s[0] != '\n' && '\n' !in s[1..];
      SplitLinesNoNewline(s[1..]);
      assert [s[0]] + s[1..] == s;
    }
  }

  lemma {:induction false} SplitLinesAfterLine(a: string, b: string)
    requires '\n' !in a
    ensures SplitLines(a + "\n" + b) == [a] + SplitLines(b)
  {
    if a == [] {
      assert a + "\n" + b == "\n" + b;
      assert ("\n" + b)[1..] == b;
    } else {
      assert (a + "\n" + b)[1..] == a[1..] + "\n" + b;
      SplitLinesAfterLine(a[1..], b);
      assert [a[0]] + a[1..] == a;
    }
  }

  /** Joining lines with newlines and splitting the text again gives the
      lines back, provided none of them holds a newline itself. */
  lemma {:induction false} SplitJoinLines(lines: seq<string>)
    requires |lines| >= 1
    requires forall k :: 0 <= k < |lines| ==> '\n' !in lines[k]
    ensures SplitLines(Join("\n", lines)) == lines
  {
    if |lines| == 1 {
      SplitLinesNoNewline(lines[0]);
    } else {
      SplitJoinLines(lines[1..]);
      SplitLinesAfterLine(lines[0], Join("\n", lines[1..]));
      assert [lines[0]] + lines[1..] == lines;
    }
  }

  /** `sep.join` of an empty list is empty text, which splits into one empty line. */
  lemma SplitJoinNoLines()
    ensures SplitLines(Join("\n", [])) == [""]
  {
  }
}
