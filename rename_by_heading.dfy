/**
 * The heading-based renamer: a Markdown file is renamed after the slug of
 * its first `# ` heading, where a leading `major.minor` module number
 * becomes a `major-minor` prefix.
 */
module RenameByHeading {
  import opened Base
  import opened PyText

  const MarkdownSuffix: string := ".md"

  /**
   * What the regular expressions and `str.lower` take from the Unicode
   * database: `\d`, `\w` and lowercasing (which may change a string's length).
   */
  datatype Classes = Classes(isDigit: char -> bool, isWord: char -> bool, lower: string -> string)

  /** Decimal digits are never `.`, `-` or whitespace, as in the Unicode database. */
  ghost predicate DigitsApart(isDigit: char -> bool)
  {
    forall c :: isDigit(c) ==> c != '.' && c != '-' && !IsSpace(c)
  }

  predicate IsDash(c: char)
  {
    c == '-'
  }

  predicate AllChars(s: string, p: char -> bool)
  {
    forall k :: 0 <= k < |s| ==> p(s[k])
  }

  // ---------------------------------------------------------------------------
  // slugify
  // ---------------------------------------------------------------------------

  /**
   * `re.match(r'^(\d+)\.(\d+)\s+(.*)', text)`: the groups major, minor and
   * title, or `None`. Each quantifier takes the longest run it can; `.` does
   * not match a newline.
   */
  function MatchModule(text: string, isDigit: char -> bool): (m: Option<(string, string, string)>)
    ensures m.Some? ==> m.value.0 != [] && AllChars(m.value.0, isDigit)
    ensures m.Some? ==> m.value.1 != [] && AllChars(m.value.1, isDigit)
    ensures m.Some? ==> AllChars(m.value.2, NotNewline)
    ensures m.Some? ==>
              exists gap :: gap != [] && AllChars(gap, IsSpace) &&
                            StartsWith(text, m.value.0 + "." + m.value.1 + gap + m.value.2)
  {
    var a := Span(text, 0, isDigit);
    if a == 0 || a == |text| || text[a] != '.' then None
    else
      var b := Span(text, a + 1, isDigit);
      if b == a + 1 || b == |text| || !IsSpace(text[b]) then None
      else
        var c := Span(text, b, IsSpace);
        var d := Span(text, c, NotNewline);
        var gap := text[b..c];
        assert AllChars(gap, IsSpace) by {
          forall k | 0 <= k < |gap| ensures IsSpace(gap[k]) {
            assert gap[k] == text[b + k];
          }
        }
        SliceJoin(text, a, b, c, d);
        assert StartsWith(text, text[..a] + "." + text[a + 1..b] + gap + text[c..d]);
        Some((text[..a], text[a + 1..b], text[c..d]))
  }

  /** Cutting a prefix of `text` at `a`, `a + 1`, `b` and `c`, where `text[a]` is `.`. */
  lemma SliceJoin(text: string, a: nat, b: nat, c: nat, d: nat)
    requires a < b <= c <= d <= |text| && text[a] == '.'
    ensures text[..d] == text[..a] + "." + text[a + 1..b] + text[b..c] + text[c..d]
  {
    assert text[..a + 1] == text[..a] + ".";
    assert text[..b] == text[..a + 1] + text[a + 1..b];
    assert text[..c] == text[..b] + text[b..c];
    assert text[..d] == text[..c] + text[c..d];
  }

  /**
   * A heading written as digits, `.`, digits, whitespace and a title line is
   * matched with exactly those parts.
   */
  lemma MatchModuleFinds(major: string, minor: string, gap: string, title: string, rest: string,
                         isDigit: char -> bool)
    requires DigitsApart(isDigit)
    requires major != [] && AllChars(major, isDigit) && minor != [] && AllChars(minor, isDigit)
    requires gap != [] && AllChars(gap, IsSpace)
    requires AllChars(title, NotNewline) && (title == [] || !IsSpace(title[0]))
    requires rest == [] || (title != [] && rest[0] == '\n')
    ensures MatchModule(major + "." + minor + gap + title + rest, isDigit) == Some((major, minor, title))
  {
    var text := major + "." + minor + gap + title + rest;
    var a := |major|;
    var b := a + 1 + |minor|;
    var c := b + |gap|;
    var d := c + |title|;
    assert !isDigit('.') && !isDigit(gap[0]);
    ModuleParts(major, minor, gap, title, rest);
    ModuleSpans(major, minor, gap, title, rest, isDigit);
    MatchModuleAt(text, isDigit, a, b, c, d);
  }

  /** The four runs `MatchModule` measures end where the parts end. */
  lemma ModuleSpans(major: string, minor: string, gap: string, title: string, rest: string,
                    isDigit: char -> bool)
    requires AllChars(major, isDigit) && AllChars(minor, isDigit) && !isDigit('.')
    requires gap != [] && !isDigit(gap[0]) && AllChars(gap, IsSpace)
    requires AllChars(title, NotNewline) && (title == [] || !IsSpace(title[0]))
    requires rest == [] || (title != [] && rest[0] == '\n')
    ensures var text := major + "." + minor + gap + title + rest;
            var a := |major|;
            var b := a + 1 + |minor|;
            var c := b + |gap|;
            Span(text, 0, isDigit) == a && Span(text, a + 1, isDigit) == b &&
            Span(text, b, IsSpace) == c && Span(text, c, NotNewline) == c + |title|
  {
    MajorSpan(major, minor, gap, title, rest, isDigit);
    MinorSpan(major, minor, gap, title, rest, isDigit);
    GapSpan(major, minor, gap, title, rest);
    TitleSpan(major, minor, gap, title, rest, NotNewline);
  }

  lemma MajorSpan(major: string, minor: string, gap: string, title: string, rest: string,
                  isDigit: char -> bool)
    requires AllChars(major, isDigit) && !isDigit('.')
    ensures Span(major + "." + minor + gap + title + rest, 0, isDigit) == |major|
  {
    var text := major + "." + minor + gap + title + rest;
    forall k | 0 <= k < |major| ensures isDigit(text[k]) {
      assert text[k] == major[k];
    }
    SpanStopsAt(text, 0, |major|, isDigit);
  }

  lemma MinorSpan(major: string, minor: string, gap: string, title: string, rest: string,
                  isDigit: char -> bool)
    requires AllChars(minor, isDigit) && (gap == [] || !isDigit(gap[0])) && gap != []
    ensures Span(major + "." + minor + gap + title + rest, |major| + 1, isDigit) == |major| + 1 + |minor|
  {
    var text := major + "." + minor + gap + title + rest;
    var a := |major| + 1;
    forall k | a <= k < a + |minor| ensures isDigit(text[k]) {
      assert text[k] == minor[k - a];
    }
    SpanStopsAt(text, a, a + |minor|, isDigit);
  }

  lemma GapSpan(major: string, minor: string, gap: string, title: string, rest: string)
    requires AllChars(gap, IsSpace) && (title == [] || !IsSpace(title[0]))
    requires title == [] ==> rest == []
    ensures var b := |major| + 1 + |minor|;
            Span(major + "." + minor + gap + title + rest, b, IsSpace) == b + |gap|
  {
    var text := major + "." + minor + gap + title + rest;
    var b := |major| + 1 + |minor|;
    forall k | b <= k < b + |gap| ensures IsSpace(text[k]) {
      assert text[k] == gap[k - b];
    }
    SpanStopsAt(text, b, b + |gap|, IsSpace);
  }

  lemma TitleSpan(major: string, minor: string, gap: string, title: string, rest: string, p: char -> bool)
    requires AllChars(title, p) && (rest == [] || !p(rest[0]))
    ensures Span(major + "." + minor + gap + title + rest, |major + "." + minor + gap|, p)
            == |major + "." + minor + gap| + |title|
  {
    SpanOver(major + "." + minor + gap, title, rest, p);
  }

  /** The run of `p` that starts after `pre` covers exactly `run` when `post` does not continue it. */
  lemma SpanOver(pre: string, run: string, post: string, p: char -> bool)
    requires AllChars(run, p) && (post == [] || !p(post[0]))
    ensures Span(pre + run + post, |pre|, p) == |pre| + |run|
  {
    var text := pre + run + post;
    forall k | |pre| <= k < |pre| + |run| ensures p(text[k]) {
      assert text[k] == run[k - |pre|];
    }
    SpanStopsAt(text, |pre|, |pre| + |run|, p);
  }

  /** Where the parts of `major.minor gap title rest` sit in the joined text. */
  lemma ModuleParts(major: string, minor: string, gap: string, title: string, rest: string)
    requires gap != []
    ensures var text := major + "." + minor + gap + title + rest;
            var a := |major|;
            var b := a + 1 + |minor|;
            var c := b + |gap|;
            var d := c + |title|;
            d <= |text| && text[a] == '.' && text[b] == gap[0] &&
            text[..a] == major && text[a + 1..b] == minor && text[c..d] == title
  {
  }

  /** `MatchModule` in terms of the four runs it measures. */
  lemma MatchModuleAt(text: string, isDigit: char -> bool, a: nat, b: nat, c: nat, d: nat)
    requires Span(text, 0, isDigit) == a && 0 < a < |text| && text[a] == '.'
    requires a + 1 <= |text| && Span(text, a + 1, isDigit) == b && a + 1 < b < |text| && IsSpace(text[b])
    requires Span(text, b, IsSpace) == c && c <= |text| && Span(text, c, NotNewline) == d
    ensures MatchModule(text, isDigit) == Some((text[..a], text[a + 1..b], text[c..d]))
  {
  }



  /** `re.sub(r'[^\w\s-]', '', s)`: keeps word characters, whitespace and `-`. */
  function KeepSlugChars(s: string, isWord: char -> bool): (r: string)
    ensures forall c :: c in r <==> c in s && (isWord(c) || IsSpace(c) || c == '-')
  {
    if s == [] then []
    else (if isWord(s[0]) || IsSpace(s[0]) || s[0] == '-' then [s[0]] else []) + KeepSlugChars(s[1..], isWord)
  }

  /** The filter works character by character: a text's parts are filtered separately. */
  lemma {:induction false} KeepSlugCharsAppend(a: string, b: string, isWord: char -> bool)
    ensures KeepSlugChars(a + b, isWord) == KeepSlugChars(a, isWord) + KeepSlugChars(b, isWord)
    decreases |a|
  {
    if a == [] {
      assert a + b == b;
    } else {
      assert (a + b)[0] == a[0] && (a + b)[1..] == a[1..] + b;
      KeepSlugCharsAppend(a[1..], b, isWord);
    }
  }

  /** One character is kept exactly when it is a word character, whitespace or `-`. */
  lemma KeepSlugCharsOne(c: char, isWord: char -> bool)
    ensures KeepSlugChars([c], isWord) == if isWord(c) || IsSpace(c) || c == '-' then [c] else []
  {
    assert [c][1..] == [];
  }

  /** `re.sub(r'\s+', '-', s)`: each run of whitespace becomes one `-`. */
  function DashSpaces(s: string): (r: string)
    ensures forall c :: c in r ==> !IsSpace(c)
    ensures forall c :: c in r ==> c == '-' || c in s
    ensures r == [] <==> s == []
    decreases |s|
  {
    if s == [] then []
    else if IsSpace(s[0]) then
      var rest := s[Span(s, 0, IsSpace)..];
      "-" + DashSpaces(rest)
    else [s[0]] + DashSpaces(s[1..])
  }

  /** Every character of `s` that is not whitespace is in the result. */
  lemma {:induction false} DashSpacesKeepsChars(s: string, k: nat)
    requires k < |s| && !IsSpace(s[k])
    ensures s[k] in DashSpaces(s)
  {
    assert s == s[..k] + [s[k]] + s[k + 1..];
    DashSpacesKeeps(s[..k], s[k], s[k + 1..]);
  }

  /** A character that is not whitespace passes through, and splits the text into parts replaced separately. */
  lemma {:induction false} DashSpacesKeeps(a: string, c: char, b: string)
    requires !IsSpace(c)
    ensures DashSpaces(a + [c] + b) == DashSpaces(a) + [c] + DashSpaces(b)
    decreases |a|
  {
    if a == [] {
      assert a + [c] + b == [c] + b;
      DashSpacesFront(c, b);
    } else {
      var e, head := DashSpacesHead(a, c, b);
      DashSpacesKeeps(a[e..], c, b);
      Regroup(head, DashSpaces(a[e..]), [c], DashSpaces(b));
    }
  }

  lemma DashSpacesFront(c: char, b: string)
    requires !IsSpace(c)
    ensures DashSpaces([c] + b) == [c] + DashSpaces(b)
  {
    assert ([c] + b)[1..] == b;
    DashSpacesUnfold([c] + b);
  }

  /** `a` and `a + [c] + b` start alike: the same first output, and the same part of `a` left over. */
  lemma DashSpacesHead(a: string, c: char, b: string) returns (e: nat, head: string)
    requires !IsSpace(c) && a != []
    ensures 1 <= e <= |a|
    ensures DashSpaces(a + [c] + b) == head + DashSpaces(a[e..] + [c] + b)
    ensures DashSpaces(a) == head + DashSpaces(a[e..])
  {
    var t := a + [c] + b;
    e := 1;
    if IsSpace(a[0]) {
      e := DashSpacesSpan(a, c, b);
    }
    head := if IsSpace(a[0]) then "-" else [a[0]];
    assert t[0] == a[0] && t[e..] == a[e..] + [c] + b;
    DashSpacesUnfold(t);
    DashSpacesUnfold(a);
  }

  lemma Regroup(h: string, x: string, m: string, y: string)
    ensures h + (x + m + y) == h + x + m + y
  {
  }

  /** One step of `DashSpaces`, as a fact of its own. */
  lemma DashSpacesUnfold(s: string)
    requires s != []
    ensures DashSpaces(s) == if IsSpace(s[0]) then "-" + DashSpaces(s[Span(s, 0, IsSpace)..])
                             else [s[0]] + DashSpaces(s[1..])
  {
  }

  /** The whitespace run at the start of `a` stops before `c` at the latest. */
  lemma DashSpacesSpan(a: string, c: char, b: string) returns (e: nat)
    requires !IsSpace(c) && a != []
    ensures e == Span(a, 0, IsSpace) == Span(a + [c] + b, 0, IsSpace)
    ensures e <= |a| && (a + [c] + b)[e..] == a[e..] + [c] + b
  {
    var t := a + [c] + b;
    e := Span(a, 0, IsSpace);
    assert t[e] == if e < |a| then a[e] else c;
    assert forall k :: 0 <= k < e ==> t[k] == a[k];
    SpanStopsAt(t, 0, e, IsSpace);
    assert t[e..] == a[e..] + [c] + b;
  }

  /** A whole run of whitespace, however long, becomes a single `-`. */
  lemma DashSpacesRun(w: string, b: string)
    requires w != [] && forall k :: 0 <= k < |w| ==> IsSpace(w[k])
    requires b == [] || !IsSpace(b[0])
    ensures DashSpaces(w + b) == "-" + DashSpaces(b)
  {
    var t := w + b;
    SpanStopsAt(t, 0, |w|, IsSpace);
    assert t[|w|..] == b;
  }

  /** `s` has no two `-` in a row. */
  predicate NoDoubleDash(s: string)
  {
    forall k :: 0 <= k < |s| - 1 ==> !(s[k] == '-' && s[k + 1] == '-')
  }

  /** `re.sub(r'-+', '-', s)`: each run of `-` becomes one `-`. */
  function CollapseDashes(s: string): (r: string)
    ensures NoDoubleDash(r)
    ensures forall c :: c in r <==> c in s
    ensures s != [] ==> r != [] && r[0] == s[0]
    decreases |s|
  {
    if s == [] then []
    else if s[0] == '-' then
      var rest := s[Span(s, 0, IsDash)..];
      assert forall c :: c in s <==> c == '-' || c in rest by {
        forall c | c in s && c != '-' ensures c in rest {
          var k :| 0 <= k < |s| && s[k] == c;
          assert s[k] == rest[k - Span(s, 0, IsDash)];
        }
      }
      "-" + CollapseDashes(rest)
    else [s[0]] + CollapseDashes(s[1..])
  }

  /** A character other than `-` passes through, and splits the text into parts collapsed separately. */
  lemma {:induction false} CollapseDashesKeeps(a: string, c: char, b: string)
    requires c != '-'
    ensures CollapseDashes(a + [c] + b) == CollapseDashes(a) + [c] + CollapseDashes(b)
    decreases |a|
  {
    var t := a + [c] + b;
    if a == [] {
      assert t[1..] == b;
    } else if a[0] != '-' {
      assert t[1..] == a[1..] + [c] + b;
      CollapseDashesKeeps(a[1..], c, b);
    } else {
      var e := Span(a, 0, IsDash);
      assert t[e] == if e < |a| then a[e] else c;
      SpanStopsAt(t, 0, e, IsDash);
      assert t[e..] == a[e..] + [c] + b;
      CollapseDashesKeeps(a[e..], c, b);
    }
  }

  /** A whole run of `-`, however long, becomes a single `-`. */
  lemma CollapseDashesRun(w: string, b: string)
    requires w != [] && forall k :: 0 <= k < |w| ==> w[k] == '-'
    requires b == [] || b[0] != '-'
    ensures CollapseDashes(w + b) == "-" + CollapseDashes(b)
  {
    var t := w + b;
    SpanStopsAt(t, 0, |w|, IsDash);
    assert t[|w|..] == b;
  }

  /** Collapsing leaves a text without `--` as it is, so collapsing twice is collapsing once. */
  lemma {:induction false} CollapseDashesFixed(s: string)
    requires NoDoubleDash(s)
    ensures CollapseDashes(s) == s
    decreases |s|
  {
    if s != [] {
      if s[0] == '-' {
        assert Span(s, 0, IsDash) == 1 by {
          SpanStopsAt(s, 0, 1, IsDash);
        }
      }
      CollapseDashesFixed(s[1..]);
    }
  }

  lemma CollapseDashesIdempotent(s: string)
    ensures CollapseDashes(CollapseDashes(s)) == CollapseDashes(s)
  {
    CollapseDashesFixed(CollapseDashes(s));
  }

  /** The title part of a slug: stripped, lowercased, filtered, dashed and collapsed. */
  function SlugTitle(title: string, cls: Classes): string
  {
    CollapseDashes(DashSpaces(KeepSlugChars(cls.lower(Strip(title)), cls.isWord)))
  }

  /** `slugify(text)`: `major-minor-title` for a numbered heading, else the title alone. */
  function Slugify(text: string, cls: Classes): (slug: string)
    ensures slug == [] || (slug[0] != '-' && slug[|slug| - 1] != '-')
  {
    var joined := match MatchModule(text, cls.isDigit)
                  case Some((major, minor, title)) => major + "-" + minor + "-" + SlugTitle(title, cls)
                  case None => "-" + SlugTitle(text, cls);
    StripWhere(joined, IsDash)
  }

  /** The title part holds only word characters and single `-`, and no whitespace. */
  lemma SlugTitleShape(title: string, cls: Classes)
    ensures forall c :: c in SlugTitle(title, cls) ==> !IsSpace(c) && (c == '-' || cls.isWord(c))
    ensures NoDoubleDash(SlugTitle(title, cls))
  {
  }

  /**
   * A slug holds no whitespace, only word characters, digits of the module
   * number and `-`, and never starts or ends with `-`.
   */
  lemma SlugShape(text: string, cls: Classes)
    requires DigitsApart(cls.isDigit)
    ensures forall c :: c in Slugify(text, cls) ==> SlugChar(c, cls)
  {
    match MatchModule(text, cls.isDigit)
    case Some((major, minor, title)) =>
      SlugTitleShape(title, cls);
      JoinedShape(major, minor, SlugTitle(title, cls), cls);
    case None =>
      SlugTitleShape(text, cls);
  }

  /** A character a slug may hold. */
  predicate SlugChar(c: char, cls: Classes)
  {
    !IsSpace(c) && (c == '-' || cls.isWord(c) || cls.isDigit(c))
  }

  lemma JoinedShape(major: string, minor: string, t: string, cls: Classes)
    requires DigitsApart(cls.isDigit)
    requires AllChars(major, cls.isDigit) && AllChars(minor, cls.isDigit)
    requires forall c :: c in t ==> !IsSpace(c) && (c == '-' || cls.isWord(c))
    ensures forall c :: c in major + "-" + minor + "-" + t ==> SlugChar(c, cls)
  {
    forall c | c in major + "-" + minor + "-" + t ensures SlugChar(c, cls) {
      if c in major {
        var k :| 0 <= k < |major| && major[k] == c;
      } else if c in minor {
        var k :| 0 <= k < |minor| && minor[k] == c;
      }
    }
  }

  /** A numbered heading's slug opens with `major-minor`. */
  lemma SlugNumbered(text: string, cls: Classes)
    requires DigitsApart(cls.isDigit)
    requires MatchModule(text, cls.isDigit).Some?
    ensures var m := MatchModule(text, cls.isDigit).value;
            StartsWith(Slugify(text, cls), m.0 + "-" + m.1)
  {
    var m := MatchModule(text, cls.isDigit).value;
    var prefix := m.0 + "-" + m.1;
    assert prefix[0] == m.0[0] && prefix[|prefix| - 1] == m.1[|m.1| - 1];
    assert m.0 + "-" + m.1 + "-" + SlugTitle(m.2, cls) == prefix + ("-" + SlugTitle(m.2, cls));
    StripKeepsPrefix(prefix, "-" + SlugTitle(m.2, cls));
  }

  /** Stripping `-` keeps a prefix that neither starts nor ends with `-`. */
  lemma StripKeepsPrefix(prefix: string, rest: string)
    requires prefix != [] && !IsDash(prefix[0]) && !IsDash(prefix[|prefix| - 1])
    ensures StartsWith(StripWhere(prefix + rest, IsDash), prefix)
  {
    var joined := prefix + rest;
    var l := LStripWhere(joined, IsDash);
    assert l == joined;
    var r := RStripWhere(l, IsDash);
    assert joined[|prefix| - 1] == prefix[|prefix| - 1];
    assert |r| >= |prefix|;
    assert r[..|prefix|] == joined[..|prefix|] == prefix;
  }

  /** Without a module number the empty prefix leaves no trace: the slug is the title part, stripped of `-`. */
  lemma SlugUnnumbered(text: string, cls: Classes)
    requires MatchModule(text, cls.isDigit).None?
    ensures Slugify(text, cls) == StripWhere(SlugTitle(text, cls), IsDash)
  {
    var t := SlugTitle(text, cls);
    assert ("-" + t)[1..] == t;
    assert LStripWhere("-" + t, IsDash) == LStripWhere(t, IsDash);
  }

  // ---------------------------------------------------------------------------
  // The first heading of a file
  // ---------------------------------------------------------------------------

  /** A level-one heading line. */
  predicate IsH1(line: string)
  {
    StartsWith(line, "# ")
  }

  predicate IsHashOrSpace(c: char)
  {
    c == '#' || c == ' '
  }

  /** `line.lstrip('# ').strip()`. */
  function HeadingText(line: string): (h: string)
    ensures h == [] || (!IsSpace(h[0]) && !IsSpace(h[|h| - 1]))
    ensures forall c :: c in h ==> c in line
  {
    var rest := LStripWhere(line, IsHashOrSpace);
    SuffixChars(line, |line| - |rest|);
    Strip(rest)
  }

  /** Every character of a suffix occurs in the whole. */
  lemma SuffixChars(s: string, from: nat)
    requires from <= |s|
    ensures forall c :: c in s[from..] ==> c in s
  {
    forall c | c in s[from..] ensures c in s {
      var k :| 0 <= k < |s| - from && s[from..][k] == c;
      assert s[from + k] == c;
    }
  }

  /** The index of the first heading line at or after `from`. */
  function FirstH1(lines: seq<string>, from: nat): (k: Option<nat>)
    requires from <= |lines|
    ensures k.Some? ==> from <= k.value < |lines| && IsH1(lines[k.value])
    ensures k.Some? ==> forall j :: from <= j < k.value ==> !IsH1(lines[j])
    ensures k.None? ==> forall j :: from <= j < |lines| ==> !IsH1(lines[j])
    decreases |lines| - from
  {
    if from == |lines| then None
    else if IsH1(lines[from]) then Some(from)
    else FirstH1(lines, from + 1)
  }

  /** The heading text of a file's lines, or `None` when no line is a heading. */
  function Heading(lines: seq<string>): Option<string>
  {
    match FirstH1(lines, 0)
    case None => None
    case Some(k) => Some(HeadingText(lines[k]))
  }

  /** The `for line in f` search that breaks at the first heading. */
  method FindHeading(lines: seq<string>) returns (h: Option<string>)
    ensures h == Heading(lines)
  {
    h := None;
    var i := 0;
    while i < |lines|
      invariant 0 <= i <= |lines|
      invariant FirstH1(lines, 0) == FirstH1(lines, i)
    {
      if StartsWith(lines[i], "# ") {
        h := Some(HeadingText(lines[i]));
        return;
      }
      i := i + 1;
    }
  }

  // ---------------------------------------------------------------------------
  // rename_markdown_files_in_folder
  // ---------------------------------------------------------------------------

  /** The name a file's text asks for: its heading's slug with `.md`, or `None` without a heading. */
  function TargetName(text: string, cls: Classes): (target: Option<string>)
    ensures target.Some? ==> EndsWith(target.value, MarkdownSuffix)
  {
    match Heading(ReadLines(TranslateNewlines(text)))
    case None => None
    case Some(h) =>
      var target := Slugify(h, cls) + MarkdownSuffix;
      assert target[|target| - |MarkdownSuffix|..] == MarkdownSuffix;
      Some(target)
  }

  /**
   * A file has a target exactly when one of its lines is a level-one
   * heading, and the target is the slug of the first such heading with `.md`.
   */
  lemma TargetNameFirstHeading(text: string, cls: Classes)
    ensures var lines := ReadLines(TranslateNewlines(text));
            TargetName(text, cls).None? <==> forall j :: 0 <= j < |lines| ==> !IsH1(lines[j])
    ensures var lines := ReadLines(TranslateNewlines(text));
            TargetName(text, cls).Some? ==>
              exists k :: 0 <= k < |lines| && IsH1(lines[k]) && (forall j :: 0 <= j < k ==> !IsH1(lines[j])) &&
                          TargetName(text, cls).value == Slugify(HeadingText(lines[k]), cls) + MarkdownSuffix
  {
    var lines := ReadLines(TranslateNewlines(text));
    match FirstH1(lines, 0)
    case None =>
    case Some(k) =>
      assert TargetName(text, cls).value == Slugify(HeadingText(lines[k]), cls) + MarkdownSuffix;
  }

  /** What the renamer reports for one file. */
  datatype RenameEvent =
    | NoHeading(name: string)
    | Renamed(from: string, to: string)
    | AlreadyNamed(name: string)

  /** The folder's files (name to text), the report so far, and the missing file that stopped the loop, if any. */
  datatype RenameRun = RenameRun(fs: map<string, string>, log: seq<RenameEvent>, result: Result<(), string>)

  /**
   * `os.rename(src, dst)`: the file's text moves to the new name, replacing
   * whatever was there.
   */
  function Rename(fs: map<string, string>, src: string, dst: string): (moved: map<string, string>)
    requires src in fs && src != dst
    ensures src !in moved && dst in moved && moved[dst] == fs[src]
    ensures forall n :: n != src && n != dst ==> (n in moved <==> n in fs) && (n in fs ==> moved[n] == fs[n])
  {
    (fs - {src})[dst := fs[src]]
  }

  /** The naming rule as a function value, for the loop over the listing. */
  function TargetWith(cls: Classes): (target: string -> Option<string>)
    ensures forall text :: target(text) == TargetName(text, cls)
  {
    text => TargetName(text, cls)
  }

  /** A naming rule that only ever asks for `.md` names. */
  ghost predicate TargetsMarkdown(target: string -> Option<string>)
  {
    forall text :: target(text).Some? ==> EndsWith(target(text).value, MarkdownSuffix)
  }

  lemma TargetWithMarkdown(cls: Classes)
    ensures TargetsMarkdown(TargetWith(cls))
  {
  }

  /** One listed `.md` file: renamed after its heading when the name differs. */
  function RenameStep(name: string, fs: map<string, string>, target: string -> Option<string>): RenameRun
    requires name in fs
  {
    match target(fs[name])
    case None => RenameRun(fs, [NoHeading(name)], Ok(()))
    case Some(newName) =>
      if name != newName then RenameRun(Rename(fs, name, newName), [Renamed(name, newName)], Ok(()))
      else RenameRun(fs, [AlreadyNamed(name)], Ok(()))
  }

  /** The loop over the listed names, handled so far; a listed file that is gone stops it. */
  function RenameAll(names: seq<string>, fs: map<string, string>, target: string -> Option<string>): RenameRun
    decreases |names|
  {
    if names == [] then RenameRun(fs, [], Ok(()))
    else
      var prev := RenameAll(names[..|names| - 1], fs, target);
      var name := names[|names| - 1];
      if prev.result.Err? || !EndsWith(name, MarkdownSuffix) then prev
      else if name !in prev.fs then RenameRun(prev.fs, prev.log, Err(name))
      else
        var step := RenameStep(name, prev.fs, target);
        RenameRun(step.fs, prev.log + step.log, Ok(()))
  }

  lemma {:induction false} RenameAllErrorSticks(names: seq<string>, fs: map<string, string>,
                                                target: string -> Option<string>, k: nat)
    requires k <= |names| && RenameAll(names[..k], fs, target).result.Err?
    ensures RenameAll(names, fs, target) == RenameAll(names[..k], fs, target)
    decreases |names| - k
  {
    if k < |names| {
      assert names[..k + 1][..k] == names[..k];
      RenameAllErrorSticks(names, fs, target, k + 1);
    } else {
      assert names[..k] == names;
    }
  }

  /** The loop's next iteration, in terms of the names handled so far. */
  lemma RenameAllNext(names: seq<string>, fs: map<string, string>, target: string -> Option<string>, i: nat)
    requires i < |names|
    ensures var prev := RenameAll(names[..i], fs, target);
            var name := names[i];
            RenameAll(names[..i + 1], fs, target) ==
              if prev.result.Err? || !EndsWith(name, MarkdownSuffix) then prev
              else if name !in prev.fs then RenameRun(prev.fs, prev.log, Err(name))
              else
                var step := RenameStep(name, prev.fs, target);
                RenameRun(step.fs, prev.log + step.log, Ok(()))
  {
    assert names[..i + 1][..i] == names[..i];
  }

  /** One step keeps every other file present, and every text it leaves is a text it found. */
  lemma RenameStepKeeps(name: string, fs: map<string, string>, target: string -> Option<string>)
    requires name in fs && EndsWith(name, MarkdownSuffix) && TargetsMarkdown(target)
    ensures var step := RenameStep(name, fs, target).fs;
            (forall n :: n in fs && n != name ==> n in step) &&
            (forall n :: n in step ==> (n in fs && step[n] == fs[n]) || step[n] == fs[name]) &&
            (forall n :: !EndsWith(n, MarkdownSuffix) ==> (n in step <==> n in fs) && (n in fs ==> step[n] == fs[n]))
  {
  }

  /**
   * Renaming never changes a text: every file of the folder afterwards holds
   * a text some file held before, and files whose names do not end in `.md`
   * are left alone.
   */
  lemma {:induction false} RenameKeepsTexts(names: seq<string>, fs: map<string, string>,
                                            target: string -> Option<string>)
    requires TargetsMarkdown(target)
    ensures var run := RenameAll(names, fs, target);
            forall n :: n in run.fs ==> exists m :: m in fs && fs[m] == run.fs[n]
    ensures var run := RenameAll(names, fs, target);
            forall n :: !EndsWith(n, MarkdownSuffix) ==> (n in run.fs <==> n in fs) && (n in fs ==> run.fs[n] == fs[n])
    decreases |names|
  {
    if names != [] {
      var init := names[..|names| - 1];
      var name := names[|names| - 1];
      RenameKeepsTexts(init, fs, target);
      var prev := RenameAll(init, fs, target);
      if prev.result.Ok? && EndsWith(name, MarkdownSuffix) && name in prev.fs {
        var run := RenameAll(names, fs, target);
        assert run.fs == RenameStep(name, prev.fs, target).fs;
        RenameStepKeeps(name, prev.fs, target);
        forall n | n in run.fs ensures exists m :: m in fs && fs[m] == run.fs[n] {
          if n in prev.fs && run.fs[n] == prev.fs[n] {
            var m :| m in fs && fs[m] == prev.fs[n];
          } else {
            var m :| m in fs && fs[m] == prev.fs[name];
          }
        }
      }
    }
  }

  /**
   * With the listing `os.listdir` gives (distinct names, all present), no
   * listed file has gone missing by the time the loop reaches it.
   */
  lemma ListedFilesStayReadable(names: seq<string>, fs: map<string, string>, target: string -> Option<string>)
    requires TargetsMarkdown(target)
    requires forall i, j :: 0 <= i < j < |names| ==> names[i] != names[j]
    requires forall i :: 0 <= i < |names| ==> names[i] in fs
    ensures RenameAll(names, fs, target).result.Ok?
  {
    LaterNamesPresent(names, fs, target, |names|);
    assert names[..|names|] == names;
  }

  lemma {:induction false} LaterNamesPresent(names: seq<string>, fs: map<string, string>,
                                             target: string -> Option<string>, k: nat)
    requires TargetsMarkdown(target)
    requires k <= |names|
    requires forall i, j :: 0 <= i < j < |names| ==> names[i] != names[j]
    requires forall i :: 0 <= i < |names| ==> names[i] in fs
    ensures RenameAll(names[..k], fs, target).result.Ok?
    ensures forall j :: k <= j < |names| ==> names[j] in RenameAll(names[..k], fs, target).fs
    decreases k
  {
    if k > 0 {
      LaterNamesPresent(names, fs, target, k - 1);
      var prev := RenameAll(names[..k - 1], fs, target);
      var name := names[k - 1];
      assert names[..k][..k - 1] == names[..k - 1];
      assert names[..k][k - 1] == name;
      if EndsWith(name, MarkdownSuffix) {
        assert name in prev.fs;
        RenameStepKeeps(name, prev.fs, target);
        assert RenameAll(names[..k], fs, target).fs == RenameStep(name, prev.fs, target).fs;
      }
    } else {
      assert names[..0] == [];
    }
  }

  /**
   * `rename_markdown_files_in_folder`: the listed `.md` files, in listing
   * order, over the folder's files `fs`.
   */
  method RenameMarkdownFilesInFolder(names: seq<string>, fs: map<string, string>, cls: Classes)
    returns (run: RenameRun)
    ensures run == RenameAll(names, fs, TargetWith(cls))
  {
    var target := TargetWith(cls);
    run := RenameRun(fs, [], Ok(()));
    var i := 0;
    while i < |names|
      invariant 0 <= i <= |names|
      invariant RenameAll(names[..i], fs, target) == run
      invariant run.result.Ok?
    {
      RenameAllNext(names, fs, target, i);
      var name := names[i];
      if EndsWith(name, MarkdownSuffix) {
        if name !in run.fs {
          run := RenameRun(run.fs, run.log, Err(name));
          RenameAllErrorSticks(names, fs, target, i + 1);
          return;
        }
        var step := RenameOne(name, run.fs, cls);
        run := RenameRun(step.fs, run.log + step.log, Ok(()));
      }
      i := i + 1;
    }
    assert names[..i] == names;
  }

  /** The body of the loop for one `.md` file that is present. */
  method RenameOne(name: string, fs: map<string, string>, cls: Classes) returns (step: RenameRun)
    requires name in fs
    ensures step == RenameStep(name, fs, TargetWith(cls))
  {
    var h1 := FindHeading(ReadLines(TranslateNewlines(fs[name])));
    if h1.None? {
      step := RenameRun(fs, [NoHeading(name)], Ok(()));
    } else {
      var newName := Slugify(h1.value, cls) + MarkdownSuffix;
      if name != newName {
        step := RenameRun(Rename(fs, name, newName), [Renamed(name, newName)], Ok(()));
      } else {
        step := RenameRun(fs, [AlreadyNamed(name)], Ok(()));
      }
    }
  }
}
