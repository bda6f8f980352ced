/**
 * The parts of Python's `str` type that the modelled tool relies on:
 * `startswith`/`endswith`, `find`, `split(sep, maxsplit)` and `join`,
 * `isspace`, `strip` (with and without a character argument), `splitlines`,
 * and the code-point ordering that `sorted` uses on strings.
 */
module PyText {
  import opened Base

  /** `c.isspace()`: the characters Python 3 classifies as whitespace. */
  predicate IsSpace(c: char)
  {
    var n := c as int;
    (0x09 <= n <= 0x0d) || (0x1c <= n <= 0x20) || n == 0x85 || n == 0xa0 ||
    n == 0x1680 || (0x2000 <= n <= 0x200a) || n == 0x2028 || n == 0x2029 ||
    n == 0x202f || n == 0x205f || n == 0x3000
  }

  /** The characters at which `str.splitlines` ends a line. */
  predicate IsLineBoundary(c: char)
  {
    var n := c as int;
    (0x0a <= n <= 0x0d) || (0x1c <= n <= 0x1e) || n == 0x85 || n == 0x2028 || n == 0x2029
  }

  predicate StartsWith(s: string, prefix: string)
  {
    |prefix| <= |s| && s[..|prefix|] == prefix
  }

  predicate EndsWith(s: string, suffix: string)
  {
    |suffix| <= |s| && s[|s| - |suffix|..] == suffix
  }

  /** `pat` occurs in `s` starting at index `i`. */
  predicate OccursAt(s: string, pat: string, i: nat)
  {
    i + |pat| <= |s| && s[i..i + |pat|] == pat
  }

  /** `s.find(pat, from)`: the leftmost occurrence of `pat` at or after `from`. */
  function Find(s: string, pat: string, from: nat): (r: Option<nat>)
    ensures r.Some? ==> from <= r.value && OccursAt(s, pat, r.value)
    ensures r.Some? ==> forall j :: from <= j < r.value ==> !OccursAt(s, pat, j)
    ensures r.None? ==> forall j :: from <= j ==> !OccursAt(s, pat, j)
    decreases |s| - from
  {
    if from + |pat| > |s| then None
    else if OccursAt(s, pat, from) then Some(from)
    else Find(s, pat, from + 1)
  }

  /** The first occurrence at or after `from` is the one with none before it. */
  lemma FindFirst(s: string, pat: string, from: nat, at: nat)
    requires from <= at && OccursAt(s, pat, at)
    requires forall j :: from <= j < at ==> !OccursAt(s, pat, j)
    ensures Find(s, pat, from) == Some(at)
  {
  }

  /** Searching a suffix of `s` is searching `s` from where the suffix starts. */
  lemma {:induction false} FindInSuffix(s: string, pat: string, a: nat, k: nat)
    requires a <= |s|
    ensures Find(s[a..], pat, k) == (match Find(s, pat, a + k)
                                       case None => None
                                       case Some(i) => Some(i - a))
    decreases |s| - a - k
  {
    var t := s[a..];
    if k + |pat| > |t| {
    } else {
      assert t[k..k + |pat|] == s[a + k..a + k + |pat|];
      if !OccursAt(t, pat, k) {
        FindInSuffix(s, pat, a, k + 1);
      }
    }
  }

  /** `sep.join(parts)`. */
  function Join(sep: string, parts: seq<string>): (r: string)
    decreases |parts|
  {
    if |parts| == 0 then ""
    else if |parts| == 1 then parts[0]
    else parts[0] + sep + Join(sep, parts[1..])
  }

  /**
   * `s.split(sep, maxsplit)`: cut at the leftmost occurrences of `sep`,
   * scanning left to right without overlap, at most `maxsplit` times.
   * Python refuses an empty separator.
   */
  function Split(s: string, sep: string, maxsplit: nat): (parts: seq<string>)
    requires |sep| > 0
    ensures 1 <= |parts| <= maxsplit + 1
    ensures Join(sep, parts) == s
    decreases maxsplit
  {
    if maxsplit == 0 then [s]
    else match Find(s, sep, 0)
      case None => [s]
      case Some(i) =>
        var rest := Split(s[i + |sep|..], sep, maxsplit - 1);
        assert s == s[..i] + sep + s[i + |sep|..];
        [s[..i]] + rest
  }

  /** `s.lstrip(chars)` where `drop` tells which characters are in `chars`. */
  function LStripWhere(s: string, drop: char -> bool): (r: string)
    ensures |r| <= |s| && r == s[|s| - |r|..]
    ensures r == [] || !drop(r[0])
    ensures forall k :: 0 <= k < |s| - |r| ==> drop(s[k])
    decreases |s|
  {
    if s != [] && drop(s[0]) then LStripWhere(s[1..], drop) else s
  }

  /** `s.rstrip(chars)` where `drop` tells which characters are in `chars`. */
  function RStripWhere(s: string, drop: char -> bool): (r: string)
    ensures |r| <= |s| && r == s[..|r|]
    ensures r == [] || !drop(r[|r| - 1])
    ensures forall k :: |r| <= k < |s| ==> drop(s[k])
    decreases |s|
  {
    if s != [] && drop(s[|s| - 1]) then RStripWhere(s[..|s| - 1], drop) else s
  }

  /** `s.strip(chars)` where `drop` tells which characters are in `chars`. */
  function StripWhere(s: string, drop: char -> bool): (r: string)
    ensures r == [] || (!drop(r[0]) && !drop(r[|r| - 1]))
    ensures forall c :: c in r ==> c in s
    ensures r == [] <==> forall k :: 0 <= k < |s| ==> drop(s[k])
    ensures (s == [] || (!drop(s[0]) && !drop(s[|s| - 1]))) ==> r == s
  {
    var l := LStripWhere(s, drop);
    StripWhereFacts(s, drop, l);
    RStripWhere(l, drop)
  }

  lemma StripWhereFacts(s: string, drop: char -> bool, l: string)
    requires l == LStripWhere(s, drop)
    ensures RStripWhere(l, drop) == [] ==> forall k :: 0 <= k < |s| ==> drop(s[k])
  {
    if RStripWhere(l, drop) == [] {
      forall k | 0 <= k < |s| ensures drop(s[k]) {
        if k >= |s| - |l| {
          assert s[k] == l[k - (|s| - |l|)];
        }
      }
    }
  }

  /** `s.strip()`: remove leading and trailing whitespace. */
  function Strip(s: string): (r: string)
    ensures r == [] || (!IsSpace(r[0]) && !IsSpace(r[|r| - 1]))
    ensures r == [] <==> forall k :: 0 <= k < |s| ==> IsSpace(s[k])
  {
    StripWhere(s, IsSpace)
  }

  /** The index of the first line boundary at or after `from`. */
  function FindBoundary(s: string, from: nat): (r: Option<nat>)
    ensures r.Some? ==> from <= r.value < |s| && IsLineBoundary(s[r.value])
    ensures r.Some? ==> forall j :: from <= j < r.value ==> !IsLineBoundary(s[j])
    ensures r.None? ==> forall j :: from <= j < |s| ==> !IsLineBoundary(s[j])
    decreases |s| - from
  {
    if from >= |s| then None
    else if IsLineBoundary(s[from]) then Some(from)
    else FindBoundary(s, from + 1)
  }

  /** No character of `s` ends a line. */
  predicate SingleLine(s: string)
  {
    forall j :: 0 <= j < |s| ==> !IsLineBoundary(s[j])
  }

  /** Stripping a single line leaves a single line. */
  lemma StripSingleLine(s: string)
    requires SingleLine(s)
    ensures SingleLine(Strip(s))
  {
    var r := StripWhere(s, IsSpace);
    assert forall c :: c in r ==> c in s;
  }

  /** Left-stripping a concatenation: `t` is reached only when all of `s` is stripped. */
  lemma {:induction false} LStripAppend(s: string, t: string, drop: char -> bool)
    ensures LStripWhere(s + t, drop) == if LStripWhere(s, drop) != [] then LStripWhere(s, drop) + t
                                        else LStripWhere(t, drop)
    decreases |s|
  {
    if s == [] {
      assert s + t == t;
    } else if drop(s[0]) {
      assert (s + t)[1..] == s[1..] + t;
      LStripAppend(s[1..], t, drop);
    }
  }

  /** A trailing whitespace character does not change what `strip()` keeps. */
  lemma StripTrailingSpace(s: string, c: char)
    requires IsSpace(c)
    ensures Strip(s + [c]) == Strip(s)
  {
    var l := LStripWhere(s, IsSpace);
    LStripAppend(s, [c], IsSpace);
    if l != [] {
      RStripDropLast(l, c, IsSpace);
    } else {
      assert [c][1..] == [];
      assert LStripWhere(s + [c], IsSpace) == [];
    }
  }

  /** Right-stripping drops a last character that `drop` accepts. */
  lemma RStripDropLast(s: string, c: char, drop: char -> bool)
    requires drop(c)
    ensures RStripWhere(s + [c], drop) == RStripWhere(s, drop)
  {
    assert (s + [c])[..|s|] == s;
  }


  /** A line without terminator followed by `"\n"` is the first line, and the rest is split on its own. */
  lemma SplitLinesAfter(first: string, rest: string)
    requires SingleLine(first)
    ensures SplitLines(first + "\n" + rest) == [first] + SplitLines(rest)
  {
    var text := first + "\n" + rest;
    assert FindBoundary(text, 0) == Some(|first|) by {
      assert forall j :: 0 <= j < |first| ==> text[j] == first[j];
      assert IsLineBoundary(text[|first|]);
    }
    assert text[..|first|] == first;
    assert text[|first| + 1..] == rest;
  }

  /**
   * `s.splitlines()`: the lines of `s` without their terminators; `"\r\n"`
   * is one terminator, and a final terminator does not open an empty line.
   */
  function SplitLines(s: string): (lines: seq<string>)
    ensures forall k :: 0 <= k < |lines| ==> SingleLine(lines[k])
    ensures lines == [] <==> s == []
    decreases |s|
  {
    if s == [] then []
    else match FindBoundary(s, 0)
      case None => [s]
      case Some(i) =>
        var width := if s[i] == '\r' && i + 1 < |s| && s[i + 1] == '\n' then 2 else 1;
        [s[..i]] + SplitLines(s[i + width..])
  }

  /** The end of the longest run of characters satisfying `p` that starts at `from`. */
  function Span(s: string, from: nat, p: char -> bool): (end: nat)
    requires from <= |s|
    ensures from <= end <= |s|
    ensures forall k :: from <= k < end ==> p(s[k])
    ensures end == |s| || !p(s[end])
    decreases |s| - from
  {
    if from < |s| && p(s[from]) then Span(s, from + 1, p) else from
  }

  /** A run that holds up to `end` and stops there is the longest run. */
  lemma SpanStopsAt(s: string, from: nat, end: nat, p: char -> bool)
    requires from <= end <= |s|
    requires forall k :: from <= k < end ==> p(s[k])
    requires end == |s| || !p(s[end])
    ensures Span(s, from, p) == end
  {
  }
  predicate NotNewline(c: char)
  {
    c != '\n'
  }

  /** Reading in text mode: `"\r\n"` and a lone `"\r"` both become `"\n"`. */
  function TranslateNewlines(s: string): (r: string)
    ensures forall k :: 0 <= k < |r| ==> r[k] != '\r'
    ensures (forall k :: 0 <= k < |s| ==> s[k] != '\r') ==> r == s
    decreases |s|
  {
    if s == [] then []
    else if s[0] == '\r' then "\n" + TranslateNewlines(if |s| > 1 && s[1] == '\n' then s[2..] else s[1..])
    else [s[0]] + TranslateNewlines(s[1..])
  }

  /** The lines of `lines` written one after another. */
  function Concat(lines: seq<string>): string
  {
    if lines == [] then [] else lines[0] + Concat(lines[1..])
  }

  /** A line as a text-mode file yields it: non-empty, with `"\n"` at most as its last character. */
  predicate FileLine(line: string)
  {
    line != [] && forall k :: 0 <= k < |line| - 1 ==> line[k] != '\n'
  }

  /**
   * `f.readlines()` (and `for line in f`): the text cut after every `"\n"`,
   * each line keeping its terminator; only the last line may lack one.
   */
  function ReadLines(s: string): (lines: seq<string>)
    ensures Concat(lines) == s
    ensures forall i :: 0 <= i < |lines| ==> FileLine(lines[i])
    ensures forall i :: 0 <= i < |lines| - 1 ==> lines[i] != [] && lines[i][|lines[i]| - 1] == '\n'
    decreases |s|
  {
    if s == [] then []
    else
      var end := Span(s, 0, NotNewline);
      if end == |s| then
        assert Concat([s]) == s + Concat([]);
        [s]
      else
        var line := s[..end + 1];
        var rest := ReadLines(s[end + 1..]);
        assert s == line + s[end + 1..];
        LinesCons(line, rest);
        [line] + rest
  }

  /** A complete line in front of lines read from a file: the shape of a read is kept. */
  lemma LinesCons(line: string, rest: seq<string>)
    requires FileLine(line) && line[|line| - 1] == '\n'
    requires forall i :: 0 <= i < |rest| ==> FileLine(rest[i])
    requires forall i :: 0 <= i < |rest| - 1 ==> rest[i] != [] && rest[i][|rest[i]| - 1] == '\n'
    ensures Concat([line] + rest) == line + Concat(rest)
    ensures forall i :: 0 <= i < |[line] + rest| ==> FileLine(([line] + rest)[i])
    ensures forall i :: 0 <= i < |[line] + rest| - 1 ==>
              ([line] + rest)[i] != [] && ([line] + rest)[i][|([line] + rest)[i]| - 1] == '\n'
  {
    assert ([line] + rest)[1..] == rest;
    forall i | 0 < i < |[line] + rest| ensures ([line] + rest)[i] == rest[i - 1] {
    }
  }

  /** Reading back lines shaped as `readlines` returns them gives those lines. */
  lemma {:induction false} ReadLinesConcat(lines: seq<string>)
    requires forall i :: 0 <= i < |lines| ==> FileLine(lines[i])
    requires forall i :: 0 <= i < |lines| - 1 ==> lines[i] != [] && lines[i][|lines[i]| - 1] == '\n'
    ensures ReadLines(Concat(lines)) == lines
  {
    if lines != [] {
      var s := Concat(lines);
      var first := lines[0];
      assert s == first + Concat(lines[1..]);
      forall k | 0 <= k < |first| - 1 ensures NotNewline(s[k]) {
        assert s[k] == first[k];
      }
      if first[|first| - 1] == '\n' {
        assert s[|first| - 1] == '\n';
        SpanStopsAt(s, 0, |first| - 1, NotNewline);
        assert s[..|first|] == first;
        assert s[|first|..] == Concat(lines[1..]);
        ReadLinesConcat(lines[1..]);
        assert lines == [first] + lines[1..];
      } else {
        assert |lines| == 1;
        assert s == first by {
          assert lines[1..] == [];
        }
        SpanStopsAt(s, 0, |s|, NotNewline);
      }
    }
  }

  /** Python's `<=` on strings: code-point lexicographic order. */
  predicate LexLe(a: string, b: string)
    decreases |a|
  {
    a == [] || (b != [] && (a[0] < b[0] || (a[0] == b[0] && LexLe(a[1..], b[1..]))))
  }

  lemma {:induction false} LexLeTotal(a: string, b: string)
    ensures LexLe(a, b) || LexLe(b, a)
    decreases |a|
  {
    if a != [] && b != [] && a[0] == b[0] {
      LexLeTotal(a[1..], b[1..]);
    }
  }

  lemma {:induction false} LexLeTransitive(a: string, b: string, c: string)
    requires LexLe(a, b) && LexLe(b, c)
    ensures LexLe(a, c)
    decreases |a|
  {
    if a != [] && a[0] == b[0] && b[0] == c[0] {
      LexLeTransitive(a[1..], b[1..], c[1..]);
    }
  }

  predicate Sorted(s: seq<string>)
  {
    forall i, j :: 0 <= i < j < |s| ==> LexLe(s[i], s[j])
  }

  /** The head of a sorted list is not above anything in its tail with `x`, when not above `x`, inserted. */
  lemma HeadBelowInserted(x: string, s: seq<string>, rest: seq<string>)
    requires Sorted(s) && s != [] && LexLe(s[0], x)
    requires Sorted(rest) && multiset(rest) == multiset(s[1..]) + multiset{x}
    ensures Sorted([s[0]] + rest)
  {
    forall j | 0 <= j < |rest|
      ensures LexLe(s[0], rest[j])
    {
      assert rest[j] in multiset(rest);
      if rest[j] != x {
        assert rest[j] in multiset(s[1..]);
        var k :| 0 <= k < |s[1..]| && s[1..][k] == rest[j];
        assert LexLe(s[0], s[k + 1]);
      }
    }
    forall i, j | 0 <= i < j < |[s[0]] + rest| ensures LexLe(([s[0]] + rest)[i], ([s[0]] + rest)[j]) {
      if i > 0 {
        assert ([s[0]] + rest)[i] == rest[i - 1];
      }
      assert ([s[0]] + rest)[j] == rest[j - 1];
    }
  }

  /** Insert `x` into the sorted `s` after every element not above it. */
  function Insert(x: string, s: seq<string>): (r: seq<string>)
    requires Sorted(s)
    ensures Sorted(r)
    ensures multiset(r) == multiset(s) + multiset{x}
    decreases |s|
  {
    if s == [] then [x]
    else if LexLe(x, s[0]) then
      assert forall j :: 0 < j < |s| ==> LexLe(x, s[j]) by {
        forall j | 0 < j < |s| { LexLeTransitive(x, s[0], s[j]); }
      }
      [x] + s
    else
      LexLeTotal(x, s[0]);
      var rest := Insert(x, s[1..]);
      HeadBelowInserted(x, s, rest);
      assert s == [s[0]] + s[1..];
      [s[0]] + rest
  }

  /** `sorted(s)` for strings: an insertion sort. */
  function Sort(s: seq<string>): (r: seq<string>)
    ensures Sorted(r)
    ensures multiset(r) == multiset(s)
    decreases |s|
  {
    if s == [] then []
    else
      assert s == [s[0]] + s[1..];
      Insert(s[0], Sort(s[1..]))
  }
}
