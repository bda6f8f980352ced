/**
 * The wrapper remover: a Markdown file whose first line is an opening fence
 * (`'''`, ```` ```json ```` or ```` ```markdown ````) loses that line, and a
 * file whose last remaining line is a closing ```` ``` ```` fence loses that
 * one; a file is written back only when something was removed.
 */
module RemoveFileWrappers {
  import opened Base
  import opened PyText

  const MarkdownSuffix: string := ".md"

  /** The stripped first lines that open a wrapper. */
  const StartTokens: set<string> := {"'''", "```json", "```markdown"}

  /** The stripped last lines that close a wrapper. */
  const EndTokens: set<string> := {"```"}

  /** The first line, stripped, is an opening token. */
  predicate Opens(lines: seq<string>)
  {
    lines != [] && Strip(lines[0]) in StartTokens
  }

  /** The last line, stripped, is a closing token. */
  predicate Closes(lines: seq<string>)
  {
    lines != [] && Strip(lines[|lines| - 1]) in EndTokens
  }

  /** How many lines the opening check removes from the front. */
  function Lead(lines: seq<string>): (n: nat)
    ensures n <= 1 && n <= |lines|
    ensures n == 1 <==> Opens(lines)
  {
    if Opens(lines) then 1 else 0
  }

  /**
   * The trim: the opening line goes if it is a start token, then the last
   * remaining line goes if it is an end token. The result is the lines from
   * `Lead(lines)` on, in order, with at most one more line cut off the end,
   * and that line is cut exactly when it closes the wrapper.
   */
  function Trim(lines: seq<string>): (trimmed: seq<string>)
    ensures Lead(lines) + |trimmed| <= |lines| <= Lead(lines) + |trimmed| + 1
    ensures forall k :: 0 <= k < |trimmed| ==> trimmed[k] == lines[Lead(lines) + k]
    ensures Lead(lines) + |trimmed| < |lines| <==> Closes(lines[Lead(lines)..])
  {
    var lead := Lead(lines);
    var body := lines[lead..];
    assert |body| == |lines| - lead;
    if Closes(body) then body[..|body| - 1] else body
  }

  /** A body between an opening and a closing line comes out alone. */
  lemma TrimUnwraps(open: string, body: seq<string>, close: string)
    requires Strip(open) in StartTokens && Strip(close) in EndTokens
    ensures Trim([open] + body + [close]) == body
  {
    var lines := [open] + body + [close];
    assert lines[0] == open && lines[|lines| - 1] == close;
    TrimBoth(lines);
    assert lines[1..|lines| - 1] == body;
  }

  /** With an opening first line and a closing last line, both go and nothing else does. */
  lemma TrimBoth(lines: seq<string>)
    requires |lines| >= 2 && Opens(lines) && Closes(lines)
    ensures Trim(lines) == lines[1..|lines| - 1]
  {
    assert Lead(lines) == 1;
    var rest := lines[1..];
    assert rest[|rest| - 1] == lines[|lines| - 1];
    assert Closes(rest);
    assert Trim(lines) == rest[..|rest| - 1];
  }

  /** The trim changes the lines exactly when the first line opens or the last line closes. */
  lemma TrimUnchanged(lines: seq<string>)
    ensures Trim(lines) == lines <==> !Opens(lines) && !Closes(lines)
  {
    if !Opens(lines) {
      assert lines[Lead(lines)..] == lines;
    }
  }

  /** A single closing fence is removed: the file is left empty. */
  lemma TrimLoneFence(line: string)
    requires Strip(line) == "```"
    ensures Trim([line]) == []
  {
    assert Strip(line) !in StartTokens;
    assert !Opens([line]);
    assert [line][Lead([line])..] == [line];
  }

  /** A bare ```` ``` ```` first line is not an opening token, so it stays when more lines follow. */
  lemma TrimKeepsBareFirstFence(lines: seq<string>)
    requires |lines| >= 2 && Strip(lines[0]) == "```"
    ensures Trim(lines) != [] && Trim(lines)[0] == lines[0]
  {
    assert Strip(lines[0]) !in StartTokens;
    assert Lead(lines) == 0;
  }

  /**
   * What cleaning does to one file's text: `None` when it is skipped,
   * otherwise the trimmed lines written back. The text is read in text
   * mode, so newlines are translated before the lines are cut.
   */
  function CleanedText(text: string): (cleaned: Option<string>)
    ensures var lines := ReadLines(TranslateNewlines(text));
            cleaned.None? <==> !Opens(lines) && !Closes(lines)
  {
    var lines := ReadLines(TranslateNewlines(text));
    var trimmed := Trim(lines);
    TrimUnchanged(lines);
    if trimmed != lines then Some(Concat(trimmed)) else None
  }

  /**
   * Wrapping a body of complete lines in an opening and a closing line and
   * then cleaning the file gives back the body.
   */
  lemma CleanedUnwraps(open: string, body: seq<string>, close: string)
    requires Strip(open) in StartTokens && Strip(close) in EndTokens
    requires FileLine(open) && open[|open| - 1] == '\n' && FileLine(close)
    requires forall i :: 0 <= i < |body| ==> FileLine(body[i]) && body[i][|body[i]| - 1] == '\n'
    requires forall k :: 0 <= k < |Concat([open] + body + [close])| ==> Concat([open] + body + [close])[k] != '\r'
    ensures CleanedText(Concat([open] + body + [close])) == Some(Concat(body))
  {
    var lines := [open] + body + [close];
    ReadWrapped(open, body, close);
    TrimUnwraps(open, body, close);
    assert |Trim(lines)| < |lines|;
  }

  /** A wrapped file without carriage returns reads back as its lines. */
  lemma ReadWrapped(open: string, body: seq<string>, close: string)
    requires FileLine(open) && open[|open| - 1] == '\n' && FileLine(close)
    requires forall i :: 0 <= i < |body| ==> FileLine(body[i]) && body[i][|body[i]| - 1] == '\n'
    requires forall k :: 0 <= k < |Concat([open] + body + [close])| ==> Concat([open] + body + [close])[k] != '\r'
    ensures ReadLines(TranslateNewlines(Concat([open] + body + [close]))) == [open] + body + [close]
  {
    var lines := [open] + body + [close];
    forall i | 0 <= i < |lines| ensures FileLine(lines[i]) {
      if 0 < i < |lines| - 1 {
        assert lines[i] == body[i - 1];
      }
    }
    forall i | 0 <= i < |lines| - 1 ensures lines[i] != [] && lines[i][|lines[i]| - 1] == '\n' {
      if i > 0 {
        assert lines[i] == body[i - 1];
      }
    }
    ReadLinesConcat(lines);
  }

  /** The cleaning rule as a function value, for the loop over the listing. */
  function CleanWith(): (clean: string -> Option<string>)
    ensures forall text :: clean(text) == CleanedText(text)
  {
    text => CleanedText(text)
  }

  /** What the script reports for one file. */
  datatype CleanEvent = Cleaned(name: string) | Skipped(name: string)

  /** The folder's files (name to text), the report so far, and the missing file that stopped the loop, if any. */
  datatype CleanRun = CleanRun(fs: map<string, string>, log: seq<CleanEvent>, result: Result<(), string>)

  /** The loop over the listed names, handled so far; a listed file that is gone stops it. */
  function CleanAll(names: seq<string>, fs: map<string, string>, clean: string -> Option<string>): CleanRun
    decreases |names|
  {
    if names == [] then CleanRun(fs, [], Ok(()))
    else
      var prev := CleanAll(names[..|names| - 1], fs, clean);
      var name := names[|names| - 1];
      if prev.result.Err? || !EndsWith(name, MarkdownSuffix) then prev
      else if name !in prev.fs then CleanRun(prev.fs, prev.log, Err(name))
      else
        match clean(prev.fs[name])
        case Some(text) => CleanRun(prev.fs[name := text], prev.log + [Cleaned(name)], Ok(()))
        case None => CleanRun(prev.fs, prev.log + [Skipped(name)], Ok(()))
  }

  /** The loop's next iteration, in terms of the names handled so far. */
  lemma CleanAllNext(names: seq<string>, fs: map<string, string>, clean: string -> Option<string>, i: nat)
    requires i < |names|
    ensures var prev := CleanAll(names[..i], fs, clean);
            var name := names[i];
            CleanAll(names[..i + 1], fs, clean) ==
              if prev.result.Err? || !EndsWith(name, MarkdownSuffix) then prev
              else if name !in prev.fs then CleanRun(prev.fs, prev.log, Err(name))
              else
                match clean(prev.fs[name])
                case Some(text) => CleanRun(prev.fs[name := text], prev.log + [Cleaned(name)], Ok(()))
                case None => CleanRun(prev.fs, prev.log + [Skipped(name)], Ok(()))
  {
    assert names[..i + 1][..i] == names[..i];
  }

  lemma {:induction false} CleanAllErrorSticks(names: seq<string>, fs: map<string, string>,
                                               clean: string -> Option<string>, k: nat)
    requires k <= |names| && CleanAll(names[..k], fs, clean).result.Err?
    ensures CleanAll(names, fs, clean) == CleanAll(names[..k], fs, clean)
    decreases |names| - k
  {
    if k < |names| {
      assert names[..k + 1][..k] == names[..k];
      CleanAllErrorSticks(names, fs, clean, k + 1);
    } else {
      assert names[..k] == names;
    }
  }

  /**
   * The files the script leaves: with the listing `os.listdir` gives
   * (distinct names, all present), no file goes missing, no file appears,
   * a listed `.md` file holds its cleaned text when cleaning changed it,
   * and every other file keeps its text.
   */
  lemma {:induction false} CleanAllFiles(names: seq<string>, fs: map<string, string>,
                                         clean: string -> Option<string>)
    requires forall i, j :: 0 <= i < j < |names| ==> names[i] != names[j]
    requires forall i :: 0 <= i < |names| ==> names[i] in fs
    ensures var run := CleanAll(names, fs, clean);
            run.result.Ok? && run.fs.Keys == fs.Keys &&
            forall n :: n in fs ==>
              run.fs[n] == if n in names && EndsWith(n, MarkdownSuffix) && clean(fs[n]).Some?
                           then clean(fs[n]).value else fs[n]
    decreases |names|
  {
    if names != [] {
      var init := names[..|names| - 1];
      var name := names[|names| - 1];
      assert forall i :: 0 <= i < |init| ==> init[i] == names[i];
      CleanAllFiles(init, fs, clean);
      assert name !in init by {
        forall i | 0 <= i < |init| ensures init[i] != name {
          assert init[i] == names[i];
        }
      }
      forall n | n in fs
        ensures n in names <==> n in init || n == name
      {
        if n in names {
          var i :| 0 <= i < |names| && names[i] == n;
          if i < |init| {
            assert init[i] == n;
          }
        }
      }
    }
  }

  /**
   * `clean_file_wrappers`: the listed `.md` files, in listing order, over
   * the folder's files `fs`.
   */
  method CleanFileWrappers(names: seq<string>, fs: map<string, string>) returns (run: CleanRun)
    ensures run == CleanAll(names, fs, CleanWith())
  {
    var clean := CleanWith();
    run := CleanRun(fs, [], Ok(()));
    var i := 0;
    while i < |names|
      invariant 0 <= i <= |names|
      invariant CleanAll(names[..i], fs, clean) == run
      invariant run.result.Ok?
    {
      CleanAllNext(names, fs, clean, i);
      var name := names[i];
      if EndsWith(name, MarkdownSuffix) {
        if name !in run.fs {
          run := CleanRun(run.fs, run.log, Err(name));
          CleanAllErrorSticks(names, fs, clean, i + 1);
          return;
        }
        var lines := ReadLines(TranslateNewlines(run.fs[name]));
        var trimmed := Trim(lines);
        if trimmed != lines {
          run := CleanRun(run.fs[name := Concat(trimmed)], run.log + [Cleaned(name)], Ok(()));
        } else {
          run := CleanRun(run.fs, run.log + [Skipped(name)], Ok(()));
        }
      }
      i := i + 1;
    }
    assert names[..i] == names;
  }
}
