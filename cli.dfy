/**
 * The decision logic of the four commands: prompt validation and the
 * default prompt directory of `run`, the filename/prompt split of
 * `generate-image`, the entry checks of `generate-images`, and the merge
 * and prompt template of `generate-images-from-docs`.
 */
module Cli {
  import opened Base
  import opened PyText
  import opened PyValue
  import Client = OpenAIClient
  import Orchestrator
  import MarkdownParser

  const PromptSuffix: string := ".txt"
  const FilenameKey: string := "expected_filename"
  const SummaryKey: string := "summary"
  const AltTextKey: string := "alt_text"
  const LessonNumberKey: string := "lesson_number"
  const LessonTitleKey: string := "lesson_title"

  /** The exceptions the commands raise. */
  datatype CliError =
    | FileNotFound(path: string)                        // `validate_prompts`
    | NoPromptFiles(dir: string)                        // `run` without prompts
    | FolderFailed(failure: Orchestrator.Failure)       // raised by `process_folder`
    | EmptyPromptFile                                   // `generate-image`
    | MissingFilename
    | MissingPrompt
    | InvalidJson(path: string, message: string)        // `json.JSONDecodeError`
    | NotAList(path: string)                            // `generate-images`
    | EntryNotObject(path: string, index: nat)
    | EntryMissingKeys(path: string, index: nat)
    | SpecNotObject(path: string)                       // `generate-images-from-docs`
    | SpecMissingKeys(path: string)
    | MarkdownFailed(parseError: MarkdownParser.ParseError)  // raised by the extractor
    | ImageFailed(imageError: Client.ImageError)             // raised by `generate_image`
    | FilenameNotText(filename: Value)                        // `Path(filename)`: TypeError

  /** A JSON file: its path and what `json.loads` made of its text. */
  datatype JsonFile = JsonFile(path: string, parsed: Result<Value, string>)

  /** `Path(filename).write_bytes(data)`. */
  datatype ImageWrite = ImageWrite(filename: string, data: Client.Bytes)

  /** `w` wrote `data` under the file that the value `filename` names; only a string names one. */
  predicate WroteTo(w: ImageWrite, filename: Value, data: Client.Bytes)
  {
    filename == Str(w.filename) && w.data == data
  }

  /** `generate_image(prompt, model=..., size=...)`. */
  type ImageGen = Client.ImageRequest -> Result<Client.Bytes, Client.ImageError>

  /** The image calls and writes of a command so far, and how it ended. */
  datatype Gen = Gen(calls: seq<Client.ImageRequest>, writes: seq<ImageWrite>, result: Result<(), CliError>)

  // ---------------------------------------------------------------------------
  // run
  // ---------------------------------------------------------------------------

  /** `validate_prompts`: the given paths, unchanged, when every one exists. */
  function Validated(value: seq<string>, present: string -> bool): (r: Result<seq<string>, CliError>)
    ensures r.Ok? <==> forall i :: 0 <= i < |value| ==> present(value[i])
    ensures r.Ok? ==> r.value == value
    ensures r.Err? ==> exists k :: 0 <= k < |value| && !present(value[k]) && r.error == FileNotFound(value[k]) &&
                                  forall j :: 0 <= j < k ==> present(value[j])
    decreases |value|
  {
    if value == [] then Ok([])
    else if !present(value[0]) then Err(FileNotFound(value[0]))
    else
      match Validated(value[1..], present)
      case Ok(_) => Ok(value)
      case Err(e) =>
        assert forall j :: 0 <= j < |value| - 1 ==> value[1..][j] == value[j + 1];
        Err(e)
  }

  /** The loop of `validate_prompts`. */
  method ValidatePrompts(value: seq<string>, present: string -> bool) returns (r: Result<seq<string>, CliError>)
    ensures r == Validated(value, present)
  {
    var i := 0;
    while i < |value|
      invariant 0 <= i <= |value|
      invariant forall j :: 0 <= j < i ==> present(value[j])
    {
      if !present(value[i]) {
        r := Err(FileNotFound(value[i]));
        ValidatedFailsAt(value, present, i);
        return;
      }
      i := i + 1;
    }
    r := Ok(value);
  }

  /** The first missing path is the one reported. */
  lemma {:induction false} ValidatedFailsAt(value: seq<string>, present: string -> bool, k: nat)
    requires k < |value| && !present(value[k])
    requires forall j :: 0 <= j < k ==> present(value[j])
    ensures Validated(value, present) == Err(FileNotFound(value[k]))
    decreases k
  {
    if k > 0 {
      ValidatedFailsAt(value[1..], present, k - 1);
    }
  }

  /** The names of a directory listing that `glob("*.txt")` matches, in listing order. */
  function TxtNames(listing: seq<string>): (names: seq<string>)
    ensures forall n :: n in names <==> n in listing && EndsWith(n, PromptSuffix)
    decreases |listing|
  {
    if listing == [] then []
    else if EndsWith(listing[0], PromptSuffix) then [listing[0]] + TxtNames(listing[1..])
    else TxtNames(listing[1..])
  }

  /** The path of `name` inside `dir`. */
  function InDir(dir: string, name: string): string
  {
    dir + "/" + name
  }

  function PathsIn(dir: string, names: seq<string>): (paths: seq<string>)
    ensures |paths| == |names|
    ensures forall i :: 0 <= i < |names| ==> paths[i] == InDir(dir, names[i])
  {
    if names == [] then [] else [InDir(dir, names[0])] + PathsIn(dir, names[1..])
  }

  /** A common prefix does not change the order of two strings. */
  lemma {:induction false} LexLeCommonPrefix(p: string, a: string, b: string)
    ensures LexLe(p + a, p + b) <==> LexLe(a, b)
    decreases |p|
  {
    if p != [] {
      assert (p + a)[1..] == p[1..] + a;
      assert (p + b)[1..] == p[1..] + b;
      LexLeCommonPrefix(p[1..], a, b);
    } else {
      assert p + a == a && p + b == b;
    }
  }

  /**
   * The prompt paths `run` hands on: the validated `--prompts` when any were
   * given, else the sorted `*.txt` files of the default prompt directory.
   */
  function PromptPaths(given: seq<string>, present: string -> bool, defaultDir: string, listing: seq<string>)
    : (r: Result<seq<string>, CliError>)
    ensures given != [] ==> r == Validated(given, present)
    ensures given == [] ==> (r.Err? <==> TxtNames(listing) == [])
    ensures given == [] && r.Err? ==> r.error == NoPromptFiles(defaultDir)
    ensures given == [] && r.Ok? ==>
              Sorted(r.value) && |r.value| == |TxtNames(listing)| &&
              forall path :: path in r.value <==> exists n :: n in TxtNames(listing) && path == InDir(defaultDir, n)
  {
    if given != [] then Validated(given, present)
    else
      var names := Sort(TxtNames(listing));
      if names == [] then
        assert |names| == |multiset(names)| == |multiset(TxtNames(listing))| == |TxtNames(listing)|;
        Err(NoPromptFiles(defaultDir))
      else
        var paths := PathsIn(defaultDir, names);
        assert |names| == |multiset(names)| == |multiset(TxtNames(listing))| == |TxtNames(listing)|;
        assert Sorted(paths) by {
          forall i, j | 0 <= i < j < |paths| ensures LexLe(paths[i], paths[j]) {
            LexLeCommonPrefix(defaultDir + "/", names[i], names[j]);
          }
        }
        assert forall path :: path in paths <==> exists n :: n in names && path == InDir(defaultDir, n) by {
          forall path ensures path in paths <==> exists n :: n in names && path == InDir(defaultDir, n) {
            if path in paths {
              var i :| 0 <= i < |paths| && paths[i] == path;
              assert names[i] in names;
            }
            if exists n :: n in names && path == InDir(defaultDir, n) {
              var n :| n in names && path == InDir(defaultDir, n);
              var i :| 0 <= i < |names| && names[i] == n;
              assert paths[i] == path;
            }
          }
        }
        assert forall n :: n in names <==> n in TxtNames(listing) by {
          forall n ensures n in names <==> n in TxtNames(listing) {
            assert n in names <==> n in multiset(names);
            assert n in TxtNames(listing) <==> n in multiset(TxtNames(listing));
          }
        }
        Ok(paths)
  }

  /** The prompt texts `process_folder` reads from the paths. */
  function ReadAll(paths: seq<string>, read: string -> string): (texts: seq<string>)
    ensures |texts| == |paths|
    ensures forall i :: 0 <= i < |paths| ==> texts[i] == read(paths[i])
  {
    if paths == [] then [] else [read(paths[0])] + ReadAll(paths[1..], read)
  }

  /**
   * `run`: the prompt paths are settled first (an error there reaches no
   * file); then `process_folder` runs with the texts of those prompts.
   */
  method Run(folder: string, files: seq<TextFile>, given: seq<string>, present: string -> bool,
             defaultDir: string, listing: seq<string>, read: string -> string, model: string,
             maxTokens: Option<int>, regexJson: Option<Result<Value, string>>, dryRun: bool,
             outcomes: Orchestrator.Call -> (nat -> Client.Outcome), sub: (Orchestrator.Rule, string) -> string,
             compiles: string -> bool, repr: Value -> string)
    returns (result: Result<(), CliError>, report: seq<Orchestrator.Report>, calls: seq<Orchestrator.Call>,
             writes: seq<Orchestrator.Write>)
    ensures PromptPaths(given, present, defaultDir, listing).Err? ==>
              result == Err(PromptPaths(given, present, defaultDir, listing).error) &&
              report == [] && calls == [] && writes == []
    ensures PromptPaths(given, present, defaultDir, listing).Ok? && files != [] && dryRun ==>
              result == Ok(()) && calls == [] && writes == [] &&
              report == Orchestrator.Listing(files) +
                        [Orchestrator.PromptCount(|PromptPaths(given, present, defaultDir, listing).value|)]
    ensures PromptPaths(given, present, defaultDir, listing).Ok? && files != [] && !dryRun &&
            Orchestrator.LoadRules(regexJson, compiles, repr).Ok? ==>
              var texts := ReadAll(PromptPaths(given, present, defaultDir, listing).value, read);
              var run := Orchestrator.RunFiles(files, texts, Orchestrator.LoadRules(regexJson, compiles, repr).value,
                                               sub, Orchestrator.SendWith(outcomes));
              calls == run.calls && writes == run.writes && report == [] &&
              result == if run.result.Ok? then Ok(()) else Err(FolderFailed(Orchestrator.RemoteFailed(run.result.error)))
    ensures PromptPaths(given, present, defaultDir, listing).Ok? && files == [] ==>
              result == Ok(()) && report == [Orchestrator.NoFiles(folder)] && calls == [] && writes == []
    ensures PromptPaths(given, present, defaultDir, listing).Ok? && files != [] && !dryRun &&
            Orchestrator.LoadRules(regexJson, compiles, repr).Err? ==>
              result == Err(FolderFailed(Orchestrator.LoadRules(regexJson, compiles, repr).error)) &&
              report == [] && calls == [] && writes == []
  {
    report, calls, writes := [], [], [];
    var validated := ValidatePrompts(given, present);
    if validated.Err? {
      result := Err(validated.error);
      return;
    }
    var promptList := validated.value;
    if |promptList| == 0 {
      var names := Sort(TxtNames(listing));
      if names == [] {
        result := Err(NoPromptFiles(defaultDir));
        return;
      }
      promptList := PathsIn(defaultDir, names);
    }
    var texts := ReadAll(promptList, read);
    var folderResult;
    folderResult, report, calls, writes :=
      Orchestrator.ProcessFolder(folder, files, texts, model, maxTokens, regexJson, dryRun, outcomes, sub, compiles, repr);
    result := if folderResult.Ok? then Ok(()) else Err(FolderFailed(folderResult.error));
  }

  // ---------------------------------------------------------------------------
  // generate-image
  // ---------------------------------------------------------------------------

  /**
   * The prompt file of `generate-image`: the first line, stripped, names the
   * output file; the other lines, joined with newlines and stripped, are the
   * prompt.
   */
  function PromptFile(text: string): (r: Result<(string, string), CliError>)
    ensures r == Err(EmptyPromptFile) <==> text == []
    ensures r.Ok? ==> r.value.0 == Strip(SplitLines(text)[0])
    ensures r.Ok? ==> r.value.1 == Strip(Join("\n", SplitLines(text)[1..]))
    ensures r.Ok? ==> r.value.0 != [] && r.value.1 != [] && SingleLine(r.value.0)
    ensures text != [] && Strip(SplitLines(text)[0]) == [] ==> r == Err(MissingFilename)
    ensures r == Err(MissingPrompt) <==>
              text != [] && Strip(SplitLines(text)[0]) != [] && Strip(Join("\n", SplitLines(text)[1..])) == []
    ensures r.Ok? <==>
              text != [] && Strip(SplitLines(text)[0]) != [] && Strip(Join("\n", SplitLines(text)[1..])) != []
  {
    var lines := SplitLines(text);
    if lines == [] then Err(EmptyPromptFile)
    else
      var filename := Strip(lines[0]);
      var prompt := Strip(Join("\n", lines[1..]));
      if filename == [] then Err(MissingFilename)
      else if prompt == [] then Err(MissingPrompt)
      else
        StripSingleLine(lines[0]);
        Ok((filename, prompt))
  }

  /** Only newline characters end lines in `s`. */
  predicate NewlinesOnly(s: string)
  {
    forall j :: 0 <= j < |s| && IsLineBoundary(s[j]) ==> s[j] == '\n'
  }

  /** `s` without its final newline, if it has one. */
  function DropFinalNewline(s: string): string
  {
    if s != [] && s[|s| - 1] == '\n' then s[..|s| - 1] else s
  }

  /**
   * Joining the lines of a text that ends no line with anything but `\n`
   * gives the text back, less a final newline.
   */
  lemma {:induction false} JoinSplitLines(s: string)
    requires NewlinesOnly(s)
    ensures Join("\n", SplitLines(s)) == DropFinalNewline(s)
    decreases |s|
  {
    if s != [] {
      match FindBoundary(s, 0)
      case None =>
        assert !IsLineBoundary(s[|s| - 1]);
      case Some(i) =>
        var rest := s[i + 1..];
        SplitAtNewline(s, i);
        if rest != [] {
          assert NewlinesOnly(rest) by {
            forall j | 0 <= j < |rest| && IsLineBoundary(rest[j]) ensures rest[j] == '\n' {
              assert rest[j] == s[i + 1 + j];
            }
          }
          JoinSplitLines(rest);
          DropAfterNewline(s, i);
        }
    }
  }

  /** The first line of `s` ends at a newline at `i`. */
  lemma SplitAtNewline(s: string, i: nat)
    requires NewlinesOnly(s) && FindBoundary(s, 0) == Some(i)
    ensures s[i] == '\n'
    ensures SplitLines(s) == [s[..i]] + SplitLines(s[i + 1..])
    ensures s[i + 1..] == [] ==> DropFinalNewline(s) == s[..i]
  {
  }

  lemma DropAfterNewline(s: string, i: nat)
    requires i + 1 < |s| && s[i] == '\n'
    ensures DropFinalNewline(s) == s[..i] + "\n" + DropFinalNewline(s[i + 1..])
  {
    var rest := s[i + 1..];
    assert s == s[..i] + "\n" + rest;
    if s[|s| - 1] == '\n' {
      assert s[..|s| - 1] == s[..i] + "\n" + rest[..|rest| - 1];
    }
  }

  /**
   * Writing a prompt file and reading it back: a stripped single-line
   * filename, a newline, and a prompt whose lines end with `\n` give back the
   * filename and the stripped prompt.
   */
  lemma PromptFileRoundTrip(filename: string, body: string)
    requires filename != [] && SingleLine(filename) && Strip(filename) == filename
    requires NewlinesOnly(body)
    requires Strip(body) != []
    ensures PromptFile(filename + "\n" + body) == Ok((filename, Strip(body)))
  {
    var text := filename + "\n" + body;
    SplitLinesAfter(filename, body);
    StripJoinedLines(body);
    assert SplitLines(text)[1..] == SplitLines(body);
  }

  /** The prompt read back from the lines of `body`, stripped, is `body` stripped. */
  lemma StripJoinedLines(body: string)
    requires NewlinesOnly(body)
    ensures Strip(Join("\n", SplitLines(body))) == Strip(body)
  {
    JoinSplitLines(body);
    if body != [] && body[|body| - 1] == '\n' {
      assert body == body[..|body| - 1] + ['\n'];
      StripTrailingSpace(body[..|body| - 1], '\n');
    }
  }

  /**
   * `generate-image`: the file is checked before the single image call; the
   * image is written under the filename.
   */
  method GenerateImageCommand(text: string, model: string, size: string, generate: ImageGen)
    returns (g: Gen)
    ensures PromptFile(text).Err? ==> g == Gen([], [], Err(PromptFile(text).error))
    ensures PromptFile(text).Ok? ==>
              var (filename, prompt) := PromptFile(text).value;
              var req := Client.ImageRequest(Str(prompt), model, size);
              g.calls == [req] &&
              match generate(req)
              case Ok(data) => g.writes == [ImageWrite(filename, data)] && g.result == Ok(())
              case Err(e) => g.writes == [] && g.result == Err(ImageFailed(e))
  {
    var parsed := PromptFile(text);
    if parsed.Err? {
      return Gen([], [], Err(parsed.error));
    }
    var (filename, prompt) := parsed.value;
    var req := Client.ImageRequest(Str(prompt), model, size);
    var image := generate(req);
    if image.Err? {
      return Gen([req], [], Err(ImageFailed(image.error)));
    }
    g := Gen([req], [ImageWrite(filename, image.value)], Ok(()));
  }

  // ---------------------------------------------------------------------------
  // generate-images
  // ---------------------------------------------------------------------------

  /** An entry `generate-images` accepts: an object with truthy filename and summary. */
  predicate ValidEntry(entry: Value)
  {
    entry.Obj? && Truthy(Get(entry, FilenameKey)) && Truthy(Get(entry, SummaryKey))
  }

  /** The request for a valid entry: its summary, with the command's model and size. */
  function EntryRequest(entry: Value, model: string, size: string): Client.ImageRequest
    requires entry.Obj?
  {
    Client.ImageRequest(Get(entry, SummaryKey), model, size)
  }

  /** The calls and writes of `prev` followed by those of `step`, ending as `step` ends. */
  function Then(prev: Gen, step: Gen): Gen
  {
    Gen(prev.calls + step.calls, prev.writes + step.writes, step.result)
  }

  /**
   * Generating one image and writing it under `filename`: the image is
   * generated first, and only then does `Path` refuse a filename that is not
   * a string.
   */
  function Produce(req: Client.ImageRequest, filename: Value, generate: ImageGen): (s: Gen)
    ensures s.calls == [req]
    ensures s.result.Ok? <==> generate(req).Ok? && filename.Str?
    ensures s.result.Ok? ==> |s.writes| == 1 && WroteTo(s.writes[0], filename, generate(req).value)
    ensures s.result.Err? ==>
              s.writes == [] &&
              s.result.error == if generate(req).Err? then ImageFailed(generate(req).error)
                                else FilenameNotText(filename)
  {
    match generate(req)
    case Err(e) => Gen([req], [], Err(ImageFailed(e)))
    case Ok(data) =>
      if filename.Str? then Gen([req], [ImageWrite(filename.s, data)], Ok(()))
      else Gen([req], [], Err(FilenameNotText(filename)))
  }

  /** A run followed by one generation: one more call, and one more write when it succeeds. */
  lemma ProduceAfter(prev: Gen, req: Client.ImageRequest, filename: Value, generate: ImageGen)
    ensures var g := Then(prev, Produce(req, filename, generate));
            |g.calls| == |prev.calls| + 1 && g.calls[|prev.calls|] == req &&
            (forall i :: 0 <= i < |prev.calls| ==> g.calls[i] == prev.calls[i]) &&
            (forall i :: 0 <= i < |prev.writes| ==> g.writes[i] == prev.writes[i]) &&
            (g.result.Ok? <==> generate(req).Ok? && filename.Str?) &&
            (g.result.Ok? ==>
               |g.writes| == |prev.writes| + 1 && WroteTo(g.writes[|prev.writes|], filename, generate(req).value)) &&
            (g.result.Err? ==> g.writes == prev.writes)
  {
    var s := Produce(req, filename, generate);
    if s.result.Err? {
      assert prev.writes + s.writes == prev.writes;
    }
  }

  /** One entry of `generate-images`, the `idx`-th of its file: checked, then generated and written. */
  function EntryStep(path: string, idx: nat, entry: Value, model: string, size: string, generate: ImageGen)
    : (s: Gen)
    ensures !ValidEntry(entry) ==>
              s == Gen([], [], Err(if entry.Obj? then EntryMissingKeys(path, idx) else EntryNotObject(path, idx)))
    ensures ValidEntry(entry) ==> s == Produce(EntryRequest(entry, model, size), Get(entry, FilenameKey), generate)
  {
    if !entry.Obj? then Gen([], [], Err(EntryNotObject(path, idx)))
    else if !Truthy(Get(entry, FilenameKey)) || !Truthy(Get(entry, SummaryKey)) then
      Gen([], [], Err(EntryMissingKeys(path, idx)))
    else Produce(EntryRequest(entry, model, size), Get(entry, FilenameKey), generate)
  }

  /**
   * The entries of one JSON file handled so far: each is checked, then
   * generated and written, before the next one is looked at.
   */
  function EntriesRun(path: string, entries: seq<Value>, model: string, size: string, generate: ImageGen): Gen
    decreases |entries|
  {
    if entries == [] then Gen([], [], Ok(()))
    else
      var prev := EntriesRun(path, entries[..|entries| - 1], model, size, generate);
      if prev.result.Err? then prev
      else Then(prev, EntryStep(path, |entries| - 1, entries[|entries| - 1], model, size, generate))
  }

  /**
   * The calls follow the entries in order, each with the entry's summary and
   * the same model and size, and entries written before a failure stay
   * written; the file succeeds exactly when every entry was generated.
   */
  lemma {:induction false} EntriesRunInOrder(path: string, entries: seq<Value>, model: string, size: string,
                                             generate: ImageGen)
    ensures var g := EntriesRun(path, entries, model, size, generate);
            |g.writes| <= |g.calls| <= |entries| &&
            (g.result.Ok? <==> |g.writes| == |entries|) &&
            (g.result.Ok? ==> |g.calls| == |entries|) &&
            (forall i :: 0 <= i < |g.calls| ==> ValidEntry(entries[i]) &&
                                                g.calls[i] == EntryRequest(entries[i], model, size)) &&
            (forall i :: 0 <= i < |g.writes| ==> generate(g.calls[i]).Ok? &&
                                                 WroteTo(g.writes[i], Get(entries[i], FilenameKey),
                                                         generate(g.calls[i]).value))
    decreases |entries|
  {
    if entries != [] {
      var init := entries[..|entries| - 1];
      var last := entries[|entries| - 1];
      EntriesRunInOrder(path, init, model, size, generate);
      var prev := EntriesRun(path, init, model, size, generate);
      var g := EntriesRun(path, entries, model, size, generate);
      assert forall i :: 0 <= i < |init| ==> init[i] == entries[i];
      if prev.result.Ok? {
        var s := EntryStep(path, |entries| - 1, last, model, size, generate);
        assert g == Then(prev, s);
        forall i | 0 <= i < |g.calls|
          ensures ValidEntry(entries[i]) && g.calls[i] == EntryRequest(entries[i], model, size)
        {
          if i < |prev.calls| {
            assert g.calls[i] == prev.calls[i];
          } else {
            assert i == |init| && s.calls != [];
            assert g.calls[i] == s.calls[0];
          }
        }
      }
    }
  }

  /** A rejected entry stops the file with the entries before it already written. */
  lemma {:induction false} EntriesRunRejects(path: string, entries: seq<Value>, model: string, size: string,
                                             generate: ImageGen, k: nat)
    requires k < |entries| && !ValidEntry(entries[k])
    requires EntriesRun(path, entries[..k], model, size, generate).result.Ok?
    ensures var before := EntriesRun(path, entries[..k], model, size, generate);
            EntriesRun(path, entries, model, size, generate) ==
              Gen(before.calls, before.writes,
                  Err(if entries[k].Obj? then EntryMissingKeys(path, k) else EntryNotObject(path, k)))
  {
    assert entries[..k + 1][..k] == entries[..k];
    EntriesRunErrorSticks(path, entries, model, size, generate, k + 1);
  }

  lemma {:induction false} EntriesRunErrorSticks(path: string, entries: seq<Value>, model: string, size: string,
                                                 generate: ImageGen, k: nat)
    requires k <= |entries| && EntriesRun(path, entries[..k], model, size, generate).result.Err?
    ensures EntriesRun(path, entries, model, size, generate) == EntriesRun(path, entries[..k], model, size, generate)
    decreases |entries| - k
  {
    if k < |entries| {
      assert entries[..k + 1][..k] == entries[..k];
      EntriesRunErrorSticks(path, entries, model, size, generate, k + 1);
    } else {
      assert entries[..k] == entries;
    }
  }

  /** One JSON file of `generate-images`: it must parse to a list, whose entries are then handled. */
  function FileStep(file: JsonFile, model: string, size: string, generate: ImageGen): (s: Gen)
    ensures file.parsed.Err? ==> s == Gen([], [], Err(InvalidJson(file.path, file.parsed.error)))
    ensures file.parsed.Ok? && !file.parsed.value.Arr? ==> s == Gen([], [], Err(NotAList(file.path)))
    ensures file.parsed.Ok? && file.parsed.value.Arr? ==>
              s == EntriesRun(file.path, file.parsed.value.items, model, size, generate)
  {
    match file.parsed
    case Err(message) => Gen([], [], Err(InvalidJson(file.path, message)))
    case Ok(raw) =>
      if !raw.Arr? then Gen([], [], Err(NotAList(file.path)))
      else EntriesRun(file.path, raw.items, model, size, generate)
  }

  /** The JSON files handled so far, in the given order. */
  function FilesRun(files: seq<JsonFile>, model: string, size: string, generate: ImageGen): Gen
    decreases |files|
  {
    if files == [] then Gen([], [], Ok(()))
    else
      var prev := FilesRun(files[..|files| - 1], model, size, generate);
      if prev.result.Err? then prev
      else Then(prev, FileStep(files[|files| - 1], model, size, generate))
  }

  lemma {:induction false} FilesRunErrorSticks(files: seq<JsonFile>, model: string, size: string,
                                               generate: ImageGen, k: nat)
    requires k <= |files| && FilesRun(files[..k], model, size, generate).result.Err?
    ensures FilesRun(files, model, size, generate) == FilesRun(files[..k], model, size, generate)
    decreases |files| - k
  {
    if k < |files| {
      assert files[..k + 1][..k] == files[..k];
      FilesRunErrorSticks(files, model, size, generate, k + 1);
    } else {
      assert files[..k] == files;
    }
  }

  /** All entries of all files, in file-then-entry order. */
  function AllEntries(files: seq<JsonFile>): seq<Value>
    decreases |files|
  {
    if files == [] then []
    else
      var file := files[|files| - 1];
      AllEntries(files[..|files| - 1]) +
        (if file.parsed.Ok? && file.parsed.value.Arr? then file.parsed.value.items else [])
  }

  /**
   * `g` generated one image per entry of `entries`, in order, each from its
   * entry's summary with the same model and size, and wrote each one under its
   * entry's filename.
   */
  predicate AllWritten(g: Gen, entries: seq<Value>, model: string, size: string, generate: ImageGen)
  {
    |g.calls| == |entries| && |g.writes| == |entries| &&
    forall i :: 0 <= i < |entries| ==>
      ValidEntry(entries[i]) && g.calls[i] == EntryRequest(entries[i], model, size) &&
      generate(g.calls[i]).Ok? && WroteTo(g.writes[i], Get(entries[i], FilenameKey), generate(g.calls[i]).value)
  }

  /** A file whose entries all succeeded wrote all of them. */
  lemma EntriesWritten(path: string, entries: seq<Value>, model: string, size: string, generate: ImageGen)
    requires EntriesRun(path, entries, model, size, generate).result.Ok?
    ensures AllWritten(EntriesRun(path, entries, model, size, generate), entries, model, size, generate)
  {
    EntriesRunInOrder(path, entries, model, size, generate);
  }

  lemma AllWrittenJoin(g1: Gen, e1: seq<Value>, g2: Gen, e2: seq<Value>, model: string, size: string,
                       generate: ImageGen)
    requires AllWritten(g1, e1, model, size, generate) && AllWritten(g2, e2, model, size, generate)
    ensures AllWritten(Then(g1, g2), e1 + e2, model, size, generate)
  {
    var g := Then(g1, g2);
    var e := e1 + e2;
    forall i | 0 <= i < |e|
      ensures ValidEntry(e[i]) && g.calls[i] == EntryRequest(e[i], model, size) &&
              generate(g.calls[i]).Ok? && WroteTo(g.writes[i], Get(e[i], FilenameKey), generate(g.calls[i]).value)
    {
      if i >= |e1| {
        assert e[i] == e2[i - |e1|] && g.calls[i] == g2.calls[i - |e1|] && g.writes[i] == g2.writes[i - |e1|];
      }
    }
  }

  /**
   * A run that succeeds has read a list from every file and generated and
   * written one image per entry, in file-then-entry order.
   */
  lemma {:induction false} FilesRunInOrder(files: seq<JsonFile>, model: string, size: string, generate: ImageGen)
    requires FilesRun(files, model, size, generate).result.Ok?
    ensures forall f :: 0 <= f < |files| ==> files[f].parsed.Ok? && files[f].parsed.value.Arr?
    ensures AllWritten(FilesRun(files, model, size, generate), AllEntries(files), model, size, generate)
    decreases |files|
  {
    if files == [] {
      assert AllEntries(files) == [];
    } else {
      var init := files[..|files| - 1];
      var file := files[|files| - 1];
      var prev := FilesRun(init, model, size, generate);
      assert prev.result.Ok?;
      FilesRunInOrder(init, model, size, generate);
      var s := FileStep(file, model, size, generate);
      assert FilesRun(files, model, size, generate) == Then(prev, s);
      assert file.parsed.Ok? && file.parsed.value.Arr?;
      forall f | 0 <= f < |files| ensures files[f].parsed.Ok? && files[f].parsed.value.Arr? {
        if f < |init| {
          assert files[f] == init[f];
        }
      }
      var items := file.parsed.value.items;
      EntriesWritten(file.path, items, model, size, generate);
      assert AllEntries(files) == AllEntries(init) + items;
      AllWrittenJoin(prev, AllEntries(init), s, items, model, size, generate);
    }
  }

  /**
   * A run that fails stopped at one file: every file before it was read and
   * wholly generated and written, and the run is those files followed by the
   * failing file's own steps.
   */
  lemma {:induction false} FilesRunFailsAt(files: seq<JsonFile>, model: string, size: string, generate: ImageGen)
    requires FilesRun(files, model, size, generate).result.Err?
    ensures exists k :: 0 <= k < |files| &&
              AllWritten(FilesRun(files[..k], model, size, generate), AllEntries(files[..k]), model, size, generate) &&
              FileStep(files[k], model, size, generate).result.Err? &&
              FilesRun(files, model, size, generate) ==
                Then(FilesRun(files[..k], model, size, generate), FileStep(files[k], model, size, generate))
    decreases |files|
  {
    var n := |files| - 1;
    var init := files[..n];
    var prev := FilesRun(init, model, size, generate);
    if prev.result.Err? {
      FilesRunFailsAt(init, model, size, generate);
      var k :| 0 <= k < |init| &&
               AllWritten(FilesRun(init[..k], model, size, generate), AllEntries(init[..k]), model, size, generate) &&
               FileStep(init[k], model, size, generate).result.Err? &&
               FilesRun(init, model, size, generate) ==
                 Then(FilesRun(init[..k], model, size, generate), FileStep(init[k], model, size, generate));
      assert init[..k] == files[..k] && init[k] == files[k];
    } else {
      FilesRunInOrder(init, model, size, generate);
    }
  }

  /** `generate-images`: the JSON files in the given order, their entries in list order. */
  method GenerateImages(files: seq<JsonFile>, model: string, size: string, generate: ImageGen) returns (g: Gen)
    ensures g == FilesRun(files, model, size, generate)
  {
    g := Gen([], [], Ok(()));
    var f := 0;
    while f < |files|
      invariant 0 <= f <= |files|
      invariant FilesRun(files[..f], model, size, generate) == g
      invariant g.result.Ok?
    {
      assert files[..f + 1][..f] == files[..f];
      var file := files[f];
      if file.parsed.Err? {
        g := Gen(g.calls, g.writes, Err(InvalidJson(file.path, file.parsed.error)));
        FilesRunErrorSticks(files, model, size, generate, f + 1);
        return;
      }
      var entries := file.parsed.value;
      if !entries.Arr? {
        g := Gen(g.calls, g.writes, Err(NotAList(file.path)));
        FilesRunErrorSticks(files, model, size, generate, f + 1);
        return;
      }
      var fileGen := GenerateEntries(file.path, entries.items, model, size, generate);
      g := Then(g, fileGen);
      if g.result.Err? {
        FilesRunErrorSticks(files, model, size, generate, f + 1);
        return;
      }
      f := f + 1;
    }
    assert files[..f] == files;
  }

  /** The inner loop of `generate-images` over one file's entries. */
  method GenerateEntries(path: string, entries: seq<Value>, model: string, size: string, generate: ImageGen)
    returns (g: Gen)
    ensures g == EntriesRun(path, entries, model, size, generate)
  {
    g := Gen([], [], Ok(()));
    var idx := 0;
    while idx < |entries|
      invariant 0 <= idx <= |entries|
      invariant EntriesRun(path, entries[..idx], model, size, generate) == g
      invariant g.result.Ok?
    {
      assert entries[..idx + 1][..idx] == entries[..idx];
      var entry := entries[idx];
      if !entry.Obj? {
        g := Gen(g.calls, g.writes, Err(EntryNotObject(path, idx)));
        EntriesRunErrorSticks(path, entries, model, size, generate, idx + 1);
        return;
      }
      var filename := Get(entry, FilenameKey);
      var prompt := Get(entry, SummaryKey);
      if !Truthy(filename) || !Truthy(prompt) {
        g := Gen(g.calls, g.writes, Err(EntryMissingKeys(path, idx)));
        EntriesRunErrorSticks(path, entries, model, size, generate, idx + 1);
        return;
      }
      var req := Client.ImageRequest(prompt, model, size);
      var image := generate(req);
      if image.Err? {
        g := Gen(g.calls + [req], g.writes, Err(ImageFailed(image.error)));
        EntriesRunErrorSticks(path, entries, model, size, generate, idx + 1);
        return;
      }
      if !filename.Str? {
        g := Gen(g.calls + [req], g.writes, Err(FilenameNotText(filename)));
        EntriesRunErrorSticks(path, entries, model, size, generate, idx + 1);
        return;
      }
      g := Gen(g.calls + [req], g.writes + [ImageWrite(filename.s, image.value)], Ok(()));
      idx := idx + 1;
    }
    assert entries[..idx] == entries;
  }

  // ---------------------------------------------------------------------------
  // generate-images-from-docs
  // ---------------------------------------------------------------------------

  /** The specs of one JSON file: a list as it is, anything else as a one-element list. */
  function SpecsOf(raw: Value): (specs: seq<Value>)
    ensures raw.Arr? ==> specs == raw.items
    ensures !raw.Arr? ==> specs == [raw]
  {
    if raw.Arr? then raw.items else [raw]
  }

  /** The check of one spec. */
  function CheckSpec(path: string, spec: Value): (r: Result<Value, CliError>)
    ensures r.Ok? <==> ValidEntry(spec)
    ensures r.Ok? ==> r.value == spec
  {
    if !spec.Obj? then Err(SpecNotObject(path))
    else if !Truthy(Get(spec, FilenameKey)) || !Truthy(Get(spec, SummaryKey)) then Err(SpecMissingKeys(path))
    else Ok(spec)
  }

  /** The checked specs of one file: all of them, or the error of the first bad one. */
  function CheckSpecs(path: string, specs: seq<Value>): (r: Result<seq<Value>, CliError>)
    ensures r.Ok? <==> forall i :: 0 <= i < |specs| ==> ValidEntry(specs[i])
    ensures r.Ok? ==> r.value == specs
    decreases |specs|
  {
    if specs == [] then Ok([])
    else
      match CheckSpec(path, specs[0])
      case Err(e) => Err(e)
      case Ok(_) =>
        match CheckSpecs(path, specs[1..])
        case Err(e) =>
          assert forall i :: 1 <= i < |specs| ==> specs[i] == specs[1..][i - 1];
          Err(e)
        case Ok(rest) => Ok([specs[0]] + rest)
  }

  /** The checked specs of one JSON file, or why it was refused. */
  function FileSpecs(file: JsonFile): (r: Result<seq<Value>, CliError>)
    ensures file.parsed.Err? ==> r == Err(InvalidJson(file.path, file.parsed.error))
    ensures file.parsed.Ok? ==> r == CheckSpecs(file.path, SpecsOf(file.parsed.value))
  {
    match file.parsed
    case Err(message) => Err(InvalidJson(file.path, message))
    case Ok(raw) => CheckSpecs(file.path, SpecsOf(raw))
  }

  /**
   * The entry list of `generate-images-from-docs` after the JSON files read
   * so far: the Markdown entries first, then each file's specs.
   */
  function Merge(mdEntries: seq<Value>, files: seq<JsonFile>): Result<seq<Value>, CliError>
    decreases |files|
  {
    if files == [] then Ok(mdEntries)
    else
      match Merge(mdEntries, files[..|files| - 1])
      case Err(e) => Err(e)
      case Ok(entries) =>
        match FileSpecs(files[|files| - 1])
        case Err(e) => Err(e)
        case Ok(specs) => Ok(entries + specs)
  }

  /** The specs of all JSON files, in file-then-list order. */
  function AllSpecs(files: seq<JsonFile>): seq<Value>
    decreases |files|
  {
    if files == [] then []
    else
      var file := files[|files| - 1];
      AllSpecs(files[..|files| - 1]) + (if file.parsed.Ok? then SpecsOf(file.parsed.value) else [])
  }

  /** Every entry is an object with truthy filename and summary. */
  predicate AllValid(entries: seq<Value>)
  {
    forall i :: 0 <= i < |entries| ==> ValidEntry(entries[i])
  }

  /** Every JSON file parsed. */
  predicate AllParsed(files: seq<JsonFile>)
  {
    forall f :: 0 <= f < |files| ==> files[f].parsed.Ok?
  }

  /** A successful merge over one more file: the merge before it succeeded and that file's specs all passed. */
  lemma MergeLast(mdEntries: seq<Value>, files: seq<JsonFile>)
    requires files != [] && Merge(mdEntries, files).Ok?
    ensures var file := files[|files| - 1];
            Merge(mdEntries, files[..|files| - 1]).Ok? && file.parsed.Ok? &&
            AllValid(SpecsOf(file.parsed.value))
  {
    var file := files[|files| - 1];
    assert FileSpecs(file).Ok?;
  }

  /** The value of a successful merge over one more file: that file's specs appended. */
  lemma MergeLastValue(mdEntries: seq<Value>, files: seq<JsonFile>)
    requires files != [] && Merge(mdEntries, files).Ok?
    ensures var init := files[..|files| - 1];
            var file := files[|files| - 1];
            Merge(mdEntries, init).Ok? && file.parsed.Ok? &&
            Merge(mdEntries, files).value == Merge(mdEntries, init).value + SpecsOf(file.parsed.value) &&
            AllSpecs(files) == AllSpecs(init) + SpecsOf(file.parsed.value)
  {
    MergeLast(mdEntries, files);
  }

  /** Two lists of valid entries joined are valid. */
  lemma AllValidJoin(a: seq<Value>, b: seq<Value>)
    requires AllValid(a) && AllValid(b)
    ensures AllValid(a + b)
  {
    forall i | 0 <= i < |a + b| ensures ValidEntry((a + b)[i]) {
      if i >= |a| {
        assert (a + b)[i] == b[i - |a|];
      }
    }
  }

  /** The merge keeps every Markdown entry, in order, before every JSON spec. */
  lemma {:induction false} MergeOrder(mdEntries: seq<Value>, files: seq<JsonFile>)
    requires Merge(mdEntries, files).Ok?
    ensures Merge(mdEntries, files).value == mdEntries + AllSpecs(files)
    decreases |files|
  {
    if files != [] {
      var init := files[..|files| - 1];
      MergeLastValue(mdEntries, files);
      MergeOrder(mdEntries, init);
      Associative(mdEntries, AllSpecs(init), SpecsOf(files[|files| - 1].parsed.value));
    }
  }

  /** A merge succeeds only when every JSON file parsed. */
  lemma {:induction false} MergeParsed(mdEntries: seq<Value>, files: seq<JsonFile>)
    requires Merge(mdEntries, files).Ok?
    ensures AllParsed(files)
    decreases |files|
  {
    if files != [] {
      var init := files[..|files| - 1];
      MergeLast(mdEntries, files);
      MergeParsed(mdEntries, init);
      forall f | 0 <= f < |files| ensures files[f].parsed.Ok? {
        if f < |init| {
          assert files[f] == init[f];
        }
      }
    }
  }

  /** Every spec a successful merge keeps is an object with truthy filename and summary. */
  lemma {:induction false} MergeChecked(mdEntries: seq<Value>, files: seq<JsonFile>)
    requires Merge(mdEntries, files).Ok?
    ensures AllValid(AllSpecs(files))
    decreases |files|
  {
    if files != [] {
      var init := files[..|files| - 1];
      MergeLast(mdEntries, files);
      MergeChecked(mdEntries, init);
      var file := files[|files| - 1];
      assert AllSpecs(files) == AllSpecs(init) + SpecsOf(file.parsed.value);
      AllValidJoin(AllSpecs(init), SpecsOf(file.parsed.value));
    }
  }

  lemma Associative<T>(a: seq<T>, b: seq<T>, c: seq<T>)
    ensures a + b + c == a + (b + c)
  {
  }

  lemma {:induction false} MergeErrorSticks(mdEntries: seq<Value>, files: seq<JsonFile>, k: nat)
    requires k <= |files| && Merge(mdEntries, files[..k]).Err?
    ensures Merge(mdEntries, files) == Merge(mdEntries, files[..k])
    decreases |files| - k
  {
    if k < |files| {
      assert files[..k + 1][..k] == files[..k];
      MergeErrorSticks(mdEntries, files, k + 1);
    } else {
      assert files[..k] == files;
    }
  }
  /** The first part of the alt-text template: filename, alt text and summary. */
  function DocHead(entry: Value, repr: Value -> string): string
    requires entry.Obj?
  {
    "Create a file named `" + Render(Get(entry, FilenameKey), repr) +
    "` with alt text \"" + Render(Get(entry, AltTextKey), repr) + "\".\n" +
    "Description:\n" + Render(Get(entry, SummaryKey), repr)
  }

  /** The lesson line of the alt-text template. */
  function LessonLine(entry: Value, repr: Value -> string): string
    requires entry.Obj?
  {
    "\n(Lesson " + Render(Get(entry, LessonNumberKey), repr) + ": " + Render(Get(entry, LessonTitleKey), repr) + ")"
  }

  /** Whether the entry names a lesson. */
  predicate HasLesson(entry: Value)
    requires entry.Obj?
  {
    Truthy(Get(entry, LessonNumberKey)) || Truthy(Get(entry, LessonTitleKey))
  }

  /** The prompt for one entry: the summary, or the alt-text template when `alt_text` is truthy. */
  function DocPrompt(entry: Value, repr: Value -> string): Value
    requires entry.Obj?
  {
    if Truthy(Get(entry, AltTextKey)) then
      Str(DocHead(entry, repr) + if HasLesson(entry) then LessonLine(entry, repr) else "")
    else Get(entry, SummaryKey)
  }

  /**
   * Without alt text the summary is sent as it is; with alt text the prompt
   * is the head with the filename, the alt text and the summary, followed by
   * the lesson line exactly when a lesson number or title is given, and by
   * nothing else.
   */
  lemma DocPromptTemplate(entry: Value, repr: Value -> string)
    requires entry.Obj?
    ensures !Truthy(Get(entry, AltTextKey)) ==> DocPrompt(entry, repr) == Get(entry, SummaryKey)
    ensures Truthy(Get(entry, AltTextKey)) ==>
              var prompt := DocPrompt(entry, repr);
              prompt.Str? && StartsWith(prompt.s, DocHead(entry, repr)) &&
              (HasLesson(entry) ==> EndsWith(prompt.s, LessonLine(entry, repr)) &&
                                    |prompt.s| == |DocHead(entry, repr)| + |LessonLine(entry, repr)|) &&
              (!HasLesson(entry) ==> prompt.s == DocHead(entry, repr))
  {
    if Truthy(Get(entry, AltTextKey)) {
      var head := DocHead(entry, repr);
      var line := if HasLesson(entry) then LessonLine(entry, repr) else "";
      assert (head + line)[..|head|] == head;
      assert (head + line)[|head + line| - |line|..] == line;
    }
  }

  /** The request for each merged entry, in order. */
  function DocRequests(entries: seq<Value>, model: string, size: string, repr: Value -> string)
    : (reqs: seq<Client.ImageRequest>)
    requires forall i :: 0 <= i < |entries| ==> entries[i].Obj?
    ensures |reqs| == |entries|
    ensures forall i :: 0 <= i < |entries| ==> reqs[i] == Client.ImageRequest(DocPrompt(entries[i], repr), model, size)
    decreases |entries|
  {
    if entries == [] then []
    else
      var init := entries[..|entries| - 1];
      assert forall i :: 0 <= i < |init| ==> init[i] == entries[i];
      DocRequests(init, model, size, repr) + [Client.ImageRequest(DocPrompt(entries[|entries| - 1], repr), model, size)]
  }

  /** The filename each merged entry is written under, in order. */
  function Filenames(entries: seq<Value>): (names: seq<Value>)
    requires forall i :: 0 <= i < |entries| ==> entries[i].Obj?
    ensures |names| == |entries|
    ensures forall i :: 0 <= i < |entries| ==> names[i] == Get(entries[i], FilenameKey)
    decreases |entries|
  {
    if entries == [] then []
    else
      var init := entries[..|entries| - 1];
      assert forall i :: 0 <= i < |init| ==> init[i] == entries[i];
      Filenames(init) + [Get(entries[|entries| - 1], FilenameKey)]
  }

  /** Generating the images for `reqs` one after the other, each written under its name, until one fails. */
  function ProduceAll(reqs: seq<Client.ImageRequest>, names: seq<Value>, generate: ImageGen): Gen
    requires |reqs| == |names|
    decreases |reqs|
  {
    if reqs == [] then Gen([], [], Ok(()))
    else
      var prev := ProduceAll(reqs[..|reqs| - 1], names[..|names| - 1], generate);
      if prev.result.Err? then prev
      else Then(prev, Produce(reqs[|reqs| - 1], names[|names| - 1], generate))
  }

  /**
   * `g` made the calls `reqs` in order, up to and including the first one
   * that fails; every call before that one wrote its image under its name.
   */
  predicate InOrder(g: Gen, reqs: seq<Client.ImageRequest>, names: seq<Value>, generate: ImageGen)
    requires |reqs| == |names|
  {
    |g.writes| <= |g.calls| <= |reqs| &&
    (g.result.Ok? <==> |g.writes| == |reqs|) &&
    (g.result.Ok? ==> |g.calls| == |reqs|) &&
    (g.result.Err? ==> |g.writes| + 1 == |g.calls|) &&
    (forall i :: 0 <= i < |g.calls| ==> g.calls[i] == reqs[i]) &&
    (forall i :: 0 <= i < |g.writes| ==>
       generate(reqs[i]).Ok? && WroteTo(g.writes[i], names[i], generate(reqs[i]).value))
  }

  /** The loop's next iteration, in terms of the requests handled so far. */
  lemma ProduceAllNext(reqs: seq<Client.ImageRequest>, names: seq<Value>, generate: ImageGen, i: nat)
    requires |reqs| == |names| && i < |reqs|
    ensures var prev := ProduceAll(reqs[..i], names[..i], generate);
            ProduceAll(reqs[..i + 1], names[..i + 1], generate) ==
              if prev.result.Err? then prev else Then(prev, Produce(reqs[i], names[i], generate))
  {
    assert reqs[..i + 1][..i] == reqs[..i] && names[..i + 1][..i] == names[..i];
  }

  /** A run in order over the first requests, followed by the next generation, is in order over one more. */
  lemma InOrderStep(prev: Gen, reqs: seq<Client.ImageRequest>, names: seq<Value>, generate: ImageGen)
    requires |reqs| == |names| && reqs != []
    requires InOrder(prev, reqs[..|reqs| - 1], names[..|names| - 1], generate) && prev.result.Ok?
    ensures InOrder(Then(prev, Produce(reqs[|reqs| - 1], names[|names| - 1], generate)), reqs, names, generate)
  {
    var n := |reqs| - 1;
    ProduceAfter(prev, reqs[n], names[n], generate);
  }

  lemma {:induction false} ProduceAllInOrder(reqs: seq<Client.ImageRequest>, names: seq<Value>, generate: ImageGen)
    requires |reqs| == |names|
    ensures InOrder(ProduceAll(reqs, names, generate), reqs, names, generate)
    decreases |reqs|
  {
    if reqs != [] {
      var n := |reqs| - 1;
      var prev := ProduceAll(reqs[..n], names[..n], generate);
      ProduceAllInOrder(reqs[..n], names[..n], generate);
      if prev.result.Ok? {
        InOrderStep(prev, reqs, names, generate);
      } else {
        assert InOrder(prev, reqs[..n], names[..n], generate);
      }
    }
  }

  lemma {:induction false} ProduceAllErrorSticks(reqs: seq<Client.ImageRequest>, names: seq<Value>,
                                                 generate: ImageGen, k: nat)
    requires |reqs| == |names| && k <= |reqs|
    requires ProduceAll(reqs[..k], names[..k], generate).result.Err?
    ensures ProduceAll(reqs, names, generate) == ProduceAll(reqs[..k], names[..k], generate)
    decreases |reqs| - k
  {
    if k < |reqs| {
      assert reqs[..k + 1][..k] == reqs[..k];
      assert names[..k + 1][..k] == names[..k];
      ProduceAllErrorSticks(reqs, names, generate, k + 1);
    } else {
      assert reqs[..k] == reqs && names[..k] == names;
    }
  }

  /** The generation loop over the merged entries. */
  function DocsRun(entries: seq<Value>, model: string, size: string, generate: ImageGen, repr: Value -> string): Gen
    requires forall i :: 0 <= i < |entries| ==> entries[i].Obj?
  {
    ProduceAll(DocRequests(entries, model, size, repr), Filenames(entries), generate)
  }

  /** One call per entry in merged order, each written under its entry's filename. */
  lemma DocsRunInOrder(entries: seq<Value>, model: string, size: string, generate: ImageGen,
                       repr: Value -> string)
    requires forall i :: 0 <= i < |entries| ==> entries[i].Obj?
    ensures var g := DocsRun(entries, model, size, generate, repr);
            |g.writes| <= |g.calls| <= |entries| &&
            (g.result.Ok? <==> |g.writes| == |entries|) &&
            (g.result.Ok? ==> |g.calls| == |entries|) &&
            (forall i :: 0 <= i < |g.calls| ==>
               g.calls[i] == Client.ImageRequest(DocPrompt(entries[i], repr), model, size)) &&
            (forall i :: 0 <= i < |g.writes| ==>
               generate(g.calls[i]).Ok? &&
               WroteTo(g.writes[i], Get(entries[i], FilenameKey), generate(g.calls[i]).value))
  {
    var reqs := DocRequests(entries, model, size, repr);
    var names := Filenames(entries);
    ProduceAllInOrder(reqs, names, generate);
    var g := ProduceAll(reqs, names, generate);
    assert InOrder(g, reqs, names, generate);
    forall i | 0 <= i < |g.writes|
      ensures generate(g.calls[i]).Ok? &&
              WroteTo(g.writes[i], Get(entries[i], FilenameKey), generate(g.calls[i]).value)
    {
      assert g.calls[i] == reqs[i] && names[i] == Get(entries[i], FilenameKey);
    }
  }

  /** The Markdown entries are two-key objects, so every merged entry is an object. */
  lemma MergedAreObjects(md: seq<TextFile>, load: MarkdownParser.Loader, files: seq<JsonFile>)
    requires MarkdownParser.Entries(md, MarkdownParser.ParseWith(load)).Ok?
    requires Merge(MarkdownParser.Entries(md, MarkdownParser.ParseWith(load)).value, files).Ok?
    ensures var m := Merge(MarkdownParser.Entries(md, MarkdownParser.ParseWith(load)).value, files).value;
            forall i :: 0 <= i < |m| ==> m[i].Obj?
  {
    var parse := MarkdownParser.ParseWith(load);
    var mdEntries := MarkdownParser.Entries(md, parse).value;
    MarkdownParser.EntriesSucceed(md, parse);
    MergeOrder(mdEntries, files);
    MergeChecked(mdEntries, files);
    var m := mdEntries + AllSpecs(files);
    forall i | 0 <= i < |m| ensures m[i].Obj? {
      if i < |mdEntries| {
        assert parse(md[i].text).Ok?;
      } else {
        assert m[i] == AllSpecs(files)[i - |mdEntries|];
      }
    }
  }

  /**
   * `generate-images-from-docs`: every entry is collected and checked before
   * the first image is generated; `md` are the Markdown files, `jsonFiles`
   * the `*.json` files of the folder in the order the directory yields them.
   */
  method GenerateImagesFromDocs(md: seq<TextFile>, load: MarkdownParser.Loader, jsonFiles: seq<JsonFile>, model: string,
                                size: string, generate: ImageGen, repr: Value -> string)
    returns (g: Gen)
    ensures MarkdownParser.Entries(md, MarkdownParser.ParseWith(load)).Err? ==>
              g == Gen([], [], Err(MarkdownFailed(MarkdownParser.Entries(md, MarkdownParser.ParseWith(load)).error)))
    ensures MarkdownParser.Entries(md, MarkdownParser.ParseWith(load)).Ok? ==>
              var merged := Merge(MarkdownParser.Entries(md, MarkdownParser.ParseWith(load)).value, jsonFiles);
              (merged.Err? ==> g == Gen([], [], Err(merged.error))) &&
              (merged.Ok? ==> (forall i :: 0 <= i < |merged.value| ==> merged.value[i].Obj?) &&
                              g == DocsRun(merged.value, model, size, generate, repr))
  {
    var parsed := MarkdownParser.ParseMarkdownImageEntries(md, load);
    if parsed.Err? {
      return Gen([], [], Err(MarkdownFailed(parsed.error)));
    }
    var entries := parsed.value;
    var merged := MergeJson(entries, jsonFiles);
    if merged.Err? {
      return Gen([], [], Err(merged.error));
    }
    MergedAreObjects(md, load, jsonFiles);
    g := GenerateDocs(merged.value, model, size, generate, repr);
  }

  /** The `*.json` loop of `generate-images-from-docs`, appending each file's checked specs. */
  method MergeJson(mdEntries: seq<Value>, files: seq<JsonFile>) returns (r: Result<seq<Value>, CliError>)
    ensures r == Merge(mdEntries, files)
  {
    var entries := mdEntries;
    var f := 0;
    while f < |files|
      invariant 0 <= f <= |files|
      invariant Merge(mdEntries, files[..f]) == Ok(entries)
    {
      assert files[..f + 1][..f] == files[..f];
      var file := files[f];
      if file.parsed.Err? {
        r := Err(InvalidJson(file.path, file.parsed.error));
        MergeErrorSticks(mdEntries, files, f + 1);
        return;
      }
      var checked := CheckFileSpecs(file.path, SpecsOf(file.parsed.value));
      if checked.Err? {
        r := checked;
        MergeErrorSticks(mdEntries, files, f + 1);
        return;
      }
      entries := entries + checked.value;
      f := f + 1;
    }
    assert files[..f] == files;
    r := Ok(entries);
  }

  /** The spec loop of one JSON file. */
  method CheckFileSpecs(path: string, specs: seq<Value>) returns (r: Result<seq<Value>, CliError>)
    ensures r == CheckSpecs(path, specs)
  {
    var checked: seq<Value> := [];
    var s := 0;
    while s < |specs|
      invariant 0 <= s <= |specs|
      invariant AllValid(specs[..s])
      invariant checked == specs[..s]
    {
      var spec := CheckSpec(path, specs[s]);
      if spec.Err? {
        r := Err(spec.error);
        CheckSpecsFailsAt(path, specs, s);
        return;
      }
      assert specs[..s + 1] == specs[..s] + [specs[s]];
      AllValidJoin(specs[..s], [specs[s]]);
      checked := checked + [specs[s]];
      s := s + 1;
    }
    assert specs[..s] == specs;
    r := Ok(checked);
  }

  /** The first bad spec of a file is the one reported. */
  lemma {:induction false} CheckSpecsFailsAt(path: string, specs: seq<Value>, k: nat)
    requires k < |specs| && CheckSpec(path, specs[k]).Err?
    requires AllValid(specs[..k])
    ensures CheckSpecs(path, specs) == Err(CheckSpec(path, specs[k]).error)
    decreases k
  {
    if k > 0 {
      CheckSpecsFailsAt(path, specs[1..], k - 1);
    }
  }

  /** The generation loop of `generate-images-from-docs`. */
  method GenerateDocs(entries: seq<Value>, model: string, size: string, generate: ImageGen, repr: Value -> string)
    returns (g: Gen)
    requires forall i :: 0 <= i < |entries| ==> entries[i].Obj?
    ensures g == DocsRun(entries, model, size, generate, repr)
  {
    ghost var reqs := DocRequests(entries, model, size, repr);
    ghost var names := Filenames(entries);
    g := Gen([], [], Ok(()));
    var i := 0;
    while i < |entries|
      invariant 0 <= i <= |entries|
      invariant ProduceAll(reqs[..i], names[..i], generate) == g
      invariant g.result.Ok?
    {
      ProduceAllNext(reqs, names, generate, i);
      var entry := entries[i];
      var filename := Get(entry, FilenameKey);
      var req := Client.ImageRequest(DocPrompt(entry, repr), model, size);
      var image := generate(req);
      if image.Err? {
        g := Gen(g.calls + [req], g.writes, Err(ImageFailed(image.error)));
        ProduceAllErrorSticks(reqs, names, generate, i + 1);
        return;
      }
      if !filename.Str? {
        g := Gen(g.calls + [req], g.writes, Err(FilenameNotText(filename)));
        ProduceAllErrorSticks(reqs, names, generate, i + 1);
        return;
      }
      g := Gen(g.calls + [req], g.writes + [ImageWrite(filename.s, image.value)], Ok(()));
      i := i + 1;
    }
    assert reqs[..i] == reqs && names[..i] == names;
  }

}
