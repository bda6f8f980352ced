/**
 * The front-matter entry extractor: every Markdown file must open with a
 * `---`-delimited YAML block whose mapping names `expected_filename` and
 * `summary`; the extractor keeps exactly those two keys, file by file, and
 * the first file that breaks a rule aborts the whole call.
 */
module MarkdownParser {
  import opened Base
  import opened PyText
  import opened PyValue

  const Delimiter: string := "---"
  const FilenameKey: string := "expected_filename"
  const SummaryKey: string := "summary"

  /** Why one file was rejected: the four `ValueError` messages, or the loader's `yaml.YAMLError`. */
  datatype EntryError =
    | MissingFrontMatter
    | MissingClosingDelimiter
    | NotAMapping
    | MissingKeys
    | InvalidYaml(message: string)

  /** `yaml.safe_load`: the document's value, or the message of the error it raises. */
  type Loader = string -> Result<Value, string>

  /** The error raised for a whole call: the offending file and the reason. */
  datatype ParseError = ParseError(path: string, kind: EntryError)

  /** The two-key entry the extractor emits. */
  function ImageEntry(filename: Value, summary: Value): Value
  {
    Obj([(FilenameKey, filename), (SummaryKey, summary)])
  }

  /** `text.split("---", 2)` on a text that opens with the delimiter. */
  lemma SplitAfterOpening(text: string)
    requires StartsWith(text, Delimiter)
    ensures var parts := Split(text, Delimiter, 2);
            (|parts| == 3 <==> Find(text, Delimiter, 3).Some?) &&
            (|parts| == 3 ==> parts[1] == text[3..Find(text, Delimiter, 3).value])
  {
    var t := text[3..];
    SplitFromOpening(text);
    FindInSuffix(text, Delimiter, 3, 0);
    SplitOnce(t, Delimiter);
    if Find(t, Delimiter, 0).Some? {
      assert t[..Find(t, Delimiter, 0).value] == text[3..Find(text, Delimiter, 3).value];
    }
  }

  /** The first cut falls at the opening delimiter itself. */
  lemma SplitFromOpening(text: string)
    requires StartsWith(text, Delimiter)
    ensures Split(text, Delimiter, 2) == [[]] + Split(text[3..], Delimiter, 1)
  {
    assert OccursAt(text, Delimiter, 0);
    assert Find(text, Delimiter, 0) == Some(0);
  }

  /** `s.split(sep, 1)`: two parts around the first `sep`, or `s` alone. */
  lemma SplitOnce(s: string, sep: string)
    requires |sep| > 0
    ensures Find(s, sep, 0).None? ==> Split(s, sep, 1) == [s]
    ensures Find(s, sep, 0).Some? ==>
              var i := Find(s, sep, 0).value;
              Split(s, sep, 1) == [s[..i], s[i + |sep|..]]
  {
  }

  /**
   * The front matter: the text between the opening `---` and the next
   * `---` found after it.
   */
  function FrontMatter(text: string): (r: Result<string, EntryError>)
    ensures r.Err? ==> r.error == MissingFrontMatter || r.error == MissingClosingDelimiter
    ensures r.Ok? ==> StartsWith(text, Delimiter + r.value + Delimiter)
  {
    if !StartsWith(text, Delimiter) then Err(MissingFrontMatter)
    else
      var parts := Split(text, Delimiter, 2);
      SplitAfterOpening(text);
      if |parts| < 3 then Err(MissingClosingDelimiter)
      else
        Enclosed(text, Find(text, Delimiter, 3).value);
        Ok(parts[1])
  }

  /** The text up to a later delimiter is that delimiter, what lies between, and the delimiter. */
  lemma Enclosed(text: string, close: nat)
    requires StartsWith(text, Delimiter) && 3 <= close && OccursAt(text, Delimiter, close)
    ensures StartsWith(text, Delimiter + text[3..close] + Delimiter)
  {
    assert text[..3] == Delimiter;
    assert text[close..close + 3] == Delimiter;
    assert text[..close + 3] == text[..3] + text[3..close] + text[close..close + 3];
  }

  /**
   * Which error the front matter raises: no opening delimiter, or no second
   * delimiter after it; otherwise the block ends at the first `---` after
   * the opening one.
   */
  lemma FrontMatterCases(text: string)
    ensures FrontMatter(text) == Err(MissingFrontMatter) <==> !StartsWith(text, Delimiter)
    ensures FrontMatter(text) == Err(MissingClosingDelimiter) <==>
              StartsWith(text, Delimiter) && forall j :: 3 <= j ==> !OccursAt(text, Delimiter, j)
    ensures FrontMatter(text).Ok? ==> forall j :: 3 <= j < 3 + |FrontMatter(text).value| ==> !OccursAt(text, Delimiter, j)
  {
    if StartsWith(text, Delimiter) {
      SplitAfterOpening(text);
    }
  }

  /** `yaml.safe_load(fm) or {}`: a falsy document counts as an empty mapping; a YAML error propagates. */
  function LoadOrEmpty(fm: string, load: Loader): Result<Value, EntryError>
  {
    match load(fm)
    case Err(message) => Err(InvalidYaml(message))
    case Ok(data) => Ok(if Truthy(data) then data else Obj([]))
  }

  /** The per-file step of the extractor. */
  function ParseEntry(text: string, load: Loader): (r: Result<Value, EntryError>)
    ensures r.Ok? ==> r.value.Obj? && Keys(r.value.fields) == [FilenameKey, SummaryKey]
  {
    var fm :- FrontMatter(text);
    var data :- LoadOrEmpty(fm, load);
    if !data.Obj? then Err(NotAMapping)
    else
      var filename := Get(data, FilenameKey);
      var summary := Get(data, SummaryKey);
      if !Truthy(filename) || !Truthy(summary) then Err(MissingKeys)
      else Ok(ImageEntry(filename, summary))
  }

  /**
   * The outcome of one file, case by case: a front-matter error, a YAML
   * error, an empty document, a non-mapping document, or the required keys
   * being truthy.
   */
  lemma ParseEntryCases(text: string, load: Loader)
    ensures FrontMatter(text).Err? ==> ParseEntry(text, load) == Err(FrontMatter(text).error)
    ensures FrontMatter(text).Ok? && load(FrontMatter(text).value).Err? ==>
              ParseEntry(text, load) == Err(InvalidYaml(load(FrontMatter(text).value).error))
    ensures FrontMatter(text).Ok? && load(FrontMatter(text).value).Ok? ==>
              var data := load(FrontMatter(text).value).value;
              var r := ParseEntry(text, load);
              (!Truthy(data) ==> r == Err(MissingKeys)) &&
              (Truthy(data) && !data.Obj? ==> r == Err(NotAMapping)) &&
              (data.Obj? ==>
                 (r.Ok? <==> Truthy(Get(data, FilenameKey)) && Truthy(Get(data, SummaryKey))) &&
                 (r.Ok? ==> r.value == ImageEntry(Get(data, FilenameKey), Get(data, SummaryKey))) &&
                 (r.Err? ==> r.error == MissingKeys))
  {
  }

  /** A mapping without `expected_filename` or `summary` is rejected whatever else it holds. */
  lemma MissingKeyRejected(text: string, load: Loader)
    requires FrontMatter(text).Ok? && load(FrontMatter(text).value).Ok?
    requires var data := load(FrontMatter(text).value).value;
             data.Obj? && (FilenameKey !in Keys(data.fields) || SummaryKey !in Keys(data.fields))
    ensures ParseEntry(text, load) == Err(MissingKeys)
  {
    var data := load(FrontMatter(text).value).value;
    GetFacts(data, FilenameKey);
    GetFacts(data, SummaryKey);
  }

  /**
   * Writing a front-matter block in front of any body and reading it back:
   * the loader sees exactly the block, provided the block does not itself
   * run into a `---` before its closing delimiter.
   */
  lemma FrontMatterRoundTrip(fm: string, body: string)
    requires forall j :: 0 <= j < |fm| ==> !OccursAt(fm + Delimiter, Delimiter, j)
    ensures FrontMatter(Delimiter + fm + Delimiter + body) == Ok(fm)
  {
    var text := Delimiter + fm + Delimiter + body;
    var u := fm + Delimiter;
    assert StartsWith(text, Delimiter);
    assert text[3..3 + |u|] == u;
    forall j | 3 <= j < 3 + |fm|
      ensures !OccursAt(text, Delimiter, j)
    {
      assert !OccursAt(u, Delimiter, j - 3);
      assert text[j..j + 3] == u[j - 3..j];
    }
    assert OccursAt(text, Delimiter, 3 + |fm|) by {
      assert text[3 + |fm|..3 + |fm| + 3] == u[|fm|..];
    }
    FindFirst(text, Delimiter, 3, 3 + |fm|);
    SplitAfterOpening(text);
    assert text[3..3 + |fm|] == fm;
  }

  /**
   * The extractor's promise for one well-formed document: a block whose
   * mapping has truthy `expected_filename` and `summary` yields exactly those
   * two keys, whatever else the block and the body hold.
   */
  lemma WellFormedDocument(fm: string, body: string, load: Loader)
    requires forall j :: 0 <= j < |fm| ==> !OccursAt(fm + Delimiter, Delimiter, j)
    requires load(fm).Ok? && load(fm).value.Obj?
    requires Truthy(Get(load(fm).value, FilenameKey)) && Truthy(Get(load(fm).value, SummaryKey))
    ensures ParseEntry(Delimiter + fm + Delimiter + body, load)
              == Ok(ImageEntry(Get(load(fm).value, FilenameKey), Get(load(fm).value, SummaryKey)))
  {
    var text := Delimiter + fm + Delimiter + body;
    FrontMatterRoundTrip(fm, body);
    ParseEntryCases(text, load);
  }

  /** The per-file step as a function value, for the loop over the files. */
  function ParseWith(load: Loader): (parse: string -> Result<Value, EntryError>)
    ensures forall text :: parse(text) == ParseEntry(text, load)
  {
    text => ParseEntry(text, load)
  }

  /**
   * The whole call over the discovered files, given the per-file step:
   * entries in file order, or the error of the first file that fails.
   */
  function Entries(files: seq<TextFile>, parse: string -> Result<Value, EntryError>): Result<seq<Value>, ParseError>
    decreases |files|
  {
    if files == [] then Ok([])
    else
      var last := files[|files| - 1];
      match Entries(files[..|files| - 1], parse)
      case Err(e) => Err(e)
      case Ok(entries) =>
        match parse(last.text)
        case Err(kind) => Err(ParseError(last.path, kind))
        case Ok(entry) => Ok(entries + [entry])
  }

  /** The loop's next iteration, in terms of the files handled so far. */
  lemma EntriesNext(files: seq<TextFile>, parse: string -> Result<Value, EntryError>, i: nat)
    requires i < |files|
    ensures Entries(files[..i + 1], parse) ==
              match Entries(files[..i], parse)
              case Err(e) => Err(e)
              case Ok(entries) =>
                match parse(files[i].text)
                case Err(kind) => Err(ParseError(files[i].path, kind))
                case Ok(entry) => Ok(entries + [entry])
  {
    assert files[..i + 1][..i] == files[..i];
  }

  /** Once a file fails, no later file changes the outcome. */
  lemma {:induction false} EntriesErrorSticks(files: seq<TextFile>, parse: string -> Result<Value, EntryError>, k: nat)
    requires k <= |files| && Entries(files[..k], parse).Err?
    ensures Entries(files, parse) == Entries(files[..k], parse)
    decreases |files| - k
  {
    if k < |files| {
      assert files[..k + 1][..k] == files[..k];
      EntriesErrorSticks(files, parse, k + 1);
    } else {
      assert files[..k] == files;
    }
  }

  /**
   * Success means every file parsed, and then the result lists one entry per
   * file, in discovery order.
   */
  lemma {:induction false} EntriesSucceed(files: seq<TextFile>, parse: string -> Result<Value, EntryError>)
    ensures Entries(files, parse).Ok? <==> forall i :: 0 <= i < |files| ==> parse(files[i].text).Ok?
    ensures Entries(files, parse).Ok? ==>
              |Entries(files, parse).value| == |files| &&
              forall i :: 0 <= i < |files| ==> Entries(files, parse).value[i] == parse(files[i].text).value
    decreases |files|
  {
    if files != [] {
      var init := files[..|files| - 1];
      EntriesSucceed(init, parse);
      assert forall i :: 0 <= i < |init| ==> init[i] == files[i];
    }
  }

  /** Failure names the first file whose text is rejected, with its reason. */
  lemma {:induction false} EntriesFailAtFirstBadFile(files: seq<TextFile>, parse: string -> Result<Value, EntryError>)
    requires Entries(files, parse).Err?
    ensures exists k :: 0 <= k < |files| &&
              parse(files[k].text).Err? &&
              Entries(files, parse).error == ParseError(files[k].path, parse(files[k].text).error) &&
              forall j :: 0 <= j < k ==> parse(files[j].text).Ok?
    decreases |files|
  {
    var init := files[..|files| - 1];
    var last := |files| - 1;
    assert forall i :: 0 <= i < |init| ==> init[i] == files[i];
    if Entries(init, parse).Err? {
      EntriesFailAtFirstBadFile(init, parse);
      var k :| 0 <= k < |init| && parse(init[k].text).Err? &&
               Entries(init, parse).error == ParseError(init[k].path, parse(init[k].text).error) &&
               forall j :: 0 <= j < k ==> parse(init[j].text).Ok?;
      assert files[k] == init[k];
    } else {
      EntriesSucceed(init, parse);
      assert parse(files[last].text).Err?;
    }
  }

  /** `parse_markdown_image_entries`: the loop over the discovered files. */
  method ParseMarkdownImageEntries(files: seq<TextFile>, load: Loader)
    returns (r: Result<seq<Value>, ParseError>)
    ensures r == Entries(files, ParseWith(load))
  {
    var parse := ParseWith(load);
    var entries: seq<Value> := [];
    var i := 0;
    while i < |files|
      invariant 0 <= i <= |files|
      invariant Entries(files[..i], parse) == Ok(entries)
    {
      EntriesNext(files, parse, i);
      var parsed := ParseEntry(files[i].text, load);
      if parsed.Err? {
        r := Err(ParseError(files[i].path, parsed.error));
        EntriesErrorSticks(files, parse, i + 1);
        return;
      }
      entries := entries + [parsed.value];
      i := i + 1;
    }
    assert files[..i] == files;
    r := Ok(entries);
  }
}
