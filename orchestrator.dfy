/**
 * The prompt pipeline of `process_folder`: every discovered Markdown file is
 * threaded through the prompts in order, one remote call per prompt, the
 * ordered regex rules rewriting each call's answer, and is written back once.
 */
module Orchestrator {
  import opened Base
  import opened PyValue
  import Client = OpenAIClient

  /** One compiled rule of the regex JSON object: pattern and replacement text. */
  datatype Rule = Rule(pattern: string, replacement: string)

  /** One `send_prompt(prompt, content, model, max_tokens)` call. */
  datatype Call = Call(prompt: string, content: string)

  /** One `write_atomic(path, text)`. */
  datatype Write = Write(path: string, text: string)

  /** The lines the function prints. */
  datatype Report = NoFiles(folder: string) | Listed(path: string) | PromptCount(n: nat)

  /** The exceptions that leave `process_folder`. */
  datatype Failure =
    | InvalidJson(message: string)     // `BadParameter`: the regex file is not JSON
    | NotAnObject                      // `BadParameter`: the JSON is not an object
    | RegexError(pattern: string)      // `re.compile` rejects a pattern
    | RemoteFailed(error: Client.ApiError)

  // ---------------------------------------------------------------------------
  // Loading the regex rules
  // ---------------------------------------------------------------------------

  /**
   * The rules of the fields read so far, in key order; `compiles` says which
   * patterns `re.compile` accepts, `repr` renders non-string replacements.
   */
  function Rules(fields: seq<(string, Value)>, compiles: string -> bool, repr: Value -> string)
    : Result<seq<Rule>, Failure>
    decreases |fields|
  {
    if fields == [] then Ok([])
    else
      var last := fields[|fields| - 1];
      match Rules(fields[..|fields| - 1], compiles, repr)
      case Err(e) => Err(e)
      case Ok(rules) =>
        if compiles(last.0) then Ok(rules + [Rule(last.0, Render(last.1, repr))])
        else Err(RegexError(last.0))
  }

  /** When every pattern compiles there is one rule per key, in the object's key order. */
  lemma {:induction false} RulesInKeyOrder(fields: seq<(string, Value)>, compiles: string -> bool, repr: Value -> string)
    ensures Rules(fields, compiles, repr).Ok? <==> forall i :: 0 <= i < |fields| ==> compiles(fields[i].0)
    ensures Rules(fields, compiles, repr).Ok? ==>
              var rules := Rules(fields, compiles, repr).value;
              |rules| == |fields| &&
              forall i :: 0 <= i < |fields| ==> rules[i] == Rule(fields[i].0, Render(fields[i].1, repr))
    decreases |fields|
  {
    if fields != [] {
      var init := fields[..|fields| - 1];
      RulesInKeyOrder(init, compiles, repr);
      assert forall i :: 0 <= i < |init| ==> init[i] == fields[i];
    }
  }

  /** Once a pattern fails to compile, later fields do not matter. */
  lemma {:induction false} RulesErrorSticks(fields: seq<(string, Value)>, compiles: string -> bool,
                                            repr: Value -> string, k: nat)
    requires k <= |fields| && Rules(fields[..k], compiles, repr).Err?
    ensures Rules(fields, compiles, repr) == Rules(fields[..k], compiles, repr)
    decreases |fields| - k
  {
    if k < |fields| {
      assert fields[..k + 1][..k] == fields[..k];
      RulesErrorSticks(fields, compiles, repr, k + 1);
    } else {
      assert fields[..k] == fields;
    }
  }

  /**
   * What `--regex-json` yields: no file means no rules; otherwise the parsed
   * file (or the decoder's message) must be an object.
   */
  function LoadRules(regexJson: Option<Result<Value, string>>, compiles: string -> bool, repr: Value -> string)
    : Result<seq<Rule>, Failure>
  {
    match regexJson
    case None => Ok([])
    case Some(Err(message)) => Err(InvalidJson(message))
    case Some(Ok(raw)) =>
      if !raw.Obj? then Err(NotAnObject) else Rules(raw.fields, compiles, repr)
  }

  /** The rule-loading block of `process_folder`: a loop appending compiled patterns. */
  method LoadPatterns(regexJson: Option<Result<Value, string>>, compiles: string -> bool, repr: Value -> string)
    returns (r: Result<seq<Rule>, Failure>)
    ensures r == LoadRules(regexJson, compiles, repr)
  {
    if regexJson.None? {
      return Ok([]);
    }
    if regexJson.value.Err? {
      return Err(InvalidJson(regexJson.value.error));
    }
    var raw := regexJson.value.value;
    if !raw.Obj? {
      return Err(NotAnObject);
    }
    var fields := raw.fields;
    var patterns: seq<Rule> := [];
    var i := 0;
    while i < |fields|
      invariant 0 <= i <= |fields|
      invariant Rules(fields[..i], compiles, repr) == Ok(patterns)
    {
      assert fields[..i + 1][..i] == fields[..i];
      var (pat, repl) := fields[i];
      if !compiles(pat) {
        RulesErrorSticks(fields, compiles, repr, i + 1);
        return Err(RegexError(pat));
      }
      patterns := patterns + [Rule(pat, Render(repl, repr))];
      i := i + 1;
    }
    assert fields[..i] == fields;
    r := Ok(patterns);
  }

  // ---------------------------------------------------------------------------
  // One file: the passes
  // ---------------------------------------------------------------------------

  /** The rules applied in order, each to the previous rule's output; `sub` is `pat.sub(repl, text)`. */
  function ApplyRules(rules: seq<Rule>, sub: (Rule, string) -> string, text: string): string
    decreases |rules|
  {
    if rules == [] then text
    else sub(rules[|rules| - 1], ApplyRules(rules[..|rules| - 1], sub, text))
  }

  /** Read from the front: the first rule rewrites the text, the others rewrite its result. */
  lemma {:induction false} ApplyRulesFirstRuleFirst(rules: seq<Rule>, sub: (Rule, string) -> string, text: string)
    requires rules != []
    ensures ApplyRules(rules, sub, text) == ApplyRules(rules[1..], sub, sub(rules[0], text))
    decreases |rules|
  {
    if |rules| > 1 {
      var init := rules[..|rules| - 1];
      ApplyRulesFirstRuleFirst(init, sub, text);
      assert init[1..] == rules[1..][..|rules[1..]| - 1];
      assert rules[1..][|rules[1..]| - 1] == rules[|rules| - 1];
    }
  }

  /** The calls made for one file and its final text (or the remote failure that stopped it). */
  datatype Thread = Thread(calls: seq<Call>, result: Result<string, Client.ApiError>)

  /**
   * The passes over one file: `send` answers each call; the answer is
   * rewritten by the rules and becomes the next pass's input.
   */
  function Passes(prompts: seq<string>, rules: seq<Rule>, sub: (Rule, string) -> string,
                  send: Call -> Result<string, Client.ApiError>, text: string): Thread
    decreases |prompts|
  {
    if prompts == [] then Thread([], Ok(text))
    else
      var prev := Passes(prompts[..|prompts| - 1], rules, sub, send, text);
      if prev.result.Err? then prev
      else
        var call := Call(prompts[|prompts| - 1], prev.result.value);
        match send(call)
        case Err(e) => Thread(prev.calls + [call], Err(e))
        case Ok(answer) => Thread(prev.calls + [call], Ok(ApplyRules(rules, sub, answer)))
  }

  /**
   * The threading of the passes: call `k` sends prompt `k`; the first call
   * sends the file's text and every later call sends the previous answer
   * after all the rules; the file succeeds exactly when every prompt was
   * sent and answered, and its text is then the last answer after the rules
   * (the original text when there are no prompts).
   */
  lemma {:induction false} PassesThread(prompts: seq<string>, rules: seq<Rule>, sub: (Rule, string) -> string,
                                        send: Call -> Result<string, Client.ApiError>, text: string)
    ensures var t := Passes(prompts, rules, sub, send, text);
            |t.calls| <= |prompts| &&
            (forall k :: 0 <= k < |t.calls| ==> t.calls[k].prompt == prompts[k]) &&
            (t.calls != [] ==> t.calls[0].content == text) &&
            (forall k :: 0 <= k < |t.calls| - 1 ==>
               send(t.calls[k]).Ok? && t.calls[k + 1].content == ApplyRules(rules, sub, send(t.calls[k]).value))
    ensures var t := Passes(prompts, rules, sub, send, text);
            t.result.Err? ==> t.calls != [] && send(t.calls[|t.calls| - 1]) == Err(t.result.error)
    ensures var t := Passes(prompts, rules, sub, send, text);
            t.result.Ok? ==> |t.calls| == |prompts| &&
                             t.result.value == (if prompts == [] then text
                                                else ApplyRules(rules, sub, send(t.calls[|t.calls| - 1]).value))
    decreases |prompts|
  {
    if prompts != [] {
      var init := prompts[..|prompts| - 1];
      PassesThread(init, rules, sub, send, text);
    }
  }

  // ---------------------------------------------------------------------------
  // All files
  // ---------------------------------------------------------------------------

  /** The calls and writes of the run so far, and how it ended. */
  datatype Run = Run(calls: seq<Call>, writes: seq<Write>, result: Result<(), Client.ApiError>)

  /** The files handled in discovery order, each written once with its final text. */
  function RunFiles(files: seq<TextFile>, prompts: seq<string>, rules: seq<Rule>, sub: (Rule, string) -> string,
                    send: Call -> Result<string, Client.ApiError>): Run
    decreases |files|
  {
    if files == [] then Run([], [], Ok(()))
    else
      var prev := RunFiles(files[..|files| - 1], prompts, rules, sub, send);
      if prev.result.Err? then prev
      else
        var file := files[|files| - 1];
        var t := Passes(prompts, rules, sub, send, file.text);
        match t.result
        case Err(e) => Run(prev.calls + t.calls, prev.writes, Err(e))
        case Ok(final) => Run(prev.calls + t.calls, prev.writes + [Write(file.path, final)], Ok(()))
  }

  /**
   * Every write is of a distinct file, in discovery order, with that file's
   * final text; a successful run writes every file exactly once, and a
   * failed run stops at the first file whose passes fail.
   */
  lemma {:induction false} RunFilesWrites(files: seq<TextFile>, prompts: seq<string>, rules: seq<Rule>,
                                          sub: (Rule, string) -> string, send: Call -> Result<string, Client.ApiError>)
    ensures var run := RunFiles(files, prompts, rules, sub, send);
            |run.writes| <= |files| &&
            forall i :: 0 <= i < |run.writes| ==>
              Passes(prompts, rules, sub, send, files[i].text).result.Ok? &&
              run.writes[i] == Write(files[i].path, Passes(prompts, rules, sub, send, files[i].text).result.value)
    ensures var run := RunFiles(files, prompts, rules, sub, send);
            run.result.Ok? <==> |run.writes| == |files|
    ensures var run := RunFiles(files, prompts, rules, sub, send);
            run.result.Err? ==>
              Passes(prompts, rules, sub, send, files[|run.writes|].text).result == Err(run.result.error)
    decreases |files|
  {
    if files != [] {
      var init := files[..|files| - 1];
      RunFilesWrites(init, prompts, rules, sub, send);
      assert forall i :: 0 <= i < |init| ==> init[i] == files[i];
    }
  }

  /** A run with no prompts sends nothing and writes every file back unchanged. */
  lemma {:induction false} NoPromptsWriteBack(files: seq<TextFile>, rules: seq<Rule>, sub: (Rule, string) -> string,
                                              send: Call -> Result<string, Client.ApiError>)
    ensures RunFiles(files, [], rules, sub, send) ==
              Run([], seq(|files|, i requires 0 <= i < |files| => Write(files[i].path, files[i].text)), Ok(()))
    decreases |files|
  {
    if files != [] {
      var init := files[..|files| - 1];
      NoPromptsWriteBack(init, rules, sub, send);
      assert forall i :: 0 <= i < |init| ==> init[i] == files[i];
    }
  }

  /** Once a file fails, the run is over. */
  lemma {:induction false} RunErrorSticks(files: seq<TextFile>, prompts: seq<string>, rules: seq<Rule>,
                                          sub: (Rule, string) -> string, send: Call -> Result<string, Client.ApiError>,
                                          k: nat)
    requires k <= |files| && RunFiles(files[..k], prompts, rules, sub, send).result.Err?
    ensures RunFiles(files, prompts, rules, sub, send) == RunFiles(files[..k], prompts, rules, sub, send)
    decreases |files| - k
  {
    if k < |files| {
      assert files[..k + 1][..k] == files[..k];
      RunErrorSticks(files, prompts, rules, sub, send, k + 1);
    } else {
      assert files[..k] == files;
    }
  }

  // ---------------------------------------------------------------------------
  // process_folder
  // ---------------------------------------------------------------------------

  /** The answer of the remote call for one pass, its attempts' outcomes given by `outcomes`. */
  function SendWith(outcomes: Call -> (nat -> Client.Outcome)): (send: Call -> Result<string, Client.ApiError>)
    ensures forall c :: send(c) == Client.Policy(outcomes(c)).result
  {
    c => Client.Policy(outcomes(c)).result
  }

  /** The dry-run listing: one line per file, in discovery order. */
  function Listing(files: seq<TextFile>): (lines: seq<Report>)
    ensures |lines| == |files|
    ensures forall i :: 0 <= i < |files| ==> lines[i] == Listed(files[i].path)
  {
    if files == [] then [] else [Listed(files[0].path)] + Listing(files[1..])
  }

  /**
   * `process_folder`: `files` are the discovered Markdown files with their
   * texts, `prompts` the texts of the prompt files in the given order,
   * `regexJson` the decoded `--regex-json` file if one was given, and
   * `outcomes(c)` the attempt outcomes of the remote call `c`.
   */
  method ProcessFolder(folder: string, files: seq<TextFile>, prompts: seq<string>, model: string,
                       maxTokens: Option<int>, regexJson: Option<Result<Value, string>>, dryRun: bool,
                       outcomes: Call -> (nat -> Client.Outcome), sub: (Rule, string) -> string,
                       compiles: string -> bool, repr: Value -> string)
    returns (result: Result<(), Failure>, report: seq<Report>, calls: seq<Call>, writes: seq<Write>)
    ensures files == [] ==> result == Ok(()) && report == [NoFiles(folder)] && calls == [] && writes == []
    ensures files != [] && dryRun ==>
              result == Ok(()) && report == Listing(files) + [PromptCount(|prompts|)] && calls == [] && writes == []
    ensures files != [] && !dryRun ==> report == []
    ensures files != [] && !dryRun && LoadRules(regexJson, compiles, repr).Err? ==>
              result == Err(LoadRules(regexJson, compiles, repr).error) && calls == [] && writes == []
    ensures files != [] && !dryRun && LoadRules(regexJson, compiles, repr).Ok? ==>
              var run := RunFiles(files, prompts, LoadRules(regexJson, compiles, repr).value, sub, SendWith(outcomes));
              calls == run.calls && writes == run.writes &&
              result == (if run.result.Ok? then Ok(()) else Err(RemoteFailed(run.result.error)))
  {
    calls, writes, report := [], [], [];
    if files == [] {
      report := [NoFiles(folder)];
      result := Ok(());
      return;
    }
    if dryRun {
      var i := 0;
      while i < |files|
        invariant 0 <= i <= |files|
        invariant report == Listing(files[..i])
      {
        assert Listing(files[..i + 1]) == Listing(files[..i]) + [Listed(files[i].path)];
        report := report + [Listed(files[i].path)];
        i := i + 1;
      }
      assert files[..i] == files;
      report := report + [PromptCount(|prompts|)];
      result := Ok(());
      return;
    }
    var loaded := LoadPatterns(regexJson, compiles, repr);
    if loaded.Err? {
      result := Err(loaded.error);
      return;
    }
    var patterns := loaded.value;
    ghost var send := SendWith(outcomes);
    var f := 0;
    while f < |files|
      invariant 0 <= f <= |files|
      invariant RunFiles(files[..f], prompts, patterns, sub, send) == Run(calls, writes, Ok(()))
    {
      assert files[..f + 1][..f] == files[..f];
      var thread := RunPasses(prompts, patterns, sub, model, maxTokens, outcomes, files[f].text);
      calls := calls + thread.calls;
      if thread.result.Err? {
        RunErrorSticks(files, prompts, patterns, sub, send, f + 1);
        result := Err(RemoteFailed(thread.result.error));
        return;
      }
      writes := writes + [Write(files[f].path, thread.result.value)];
      f := f + 1;
    }
    assert files[..f] == files;
    result := Ok(());
  }

  /** The inner loop of `process_folder`: every prompt in order over one file's text. */
  method RunPasses(prompts: seq<string>, patterns: seq<Rule>, sub: (Rule, string) -> string, model: string,
                   maxTokens: Option<int>, outcomes: Call -> (nat -> Client.Outcome), text0: string)
    returns (thread: Thread)
    ensures thread == Passes(prompts, patterns, sub, SendWith(outcomes), text0)
  {
    ghost var send := SendWith(outcomes);
    var text := text0;
    var calls: seq<Call> := [];
    var p := 0;
    while p < |prompts|
      invariant 0 <= p <= |prompts|
      invariant Passes(prompts[..p], patterns, sub, send, text0) == Thread(calls, Ok(text))
    {
      assert prompts[..p + 1][..p] == prompts[..p];
      var call := Call(prompts[p], text);
      var answer, requests, sleeps := Client.SendPrompt(prompts[p], text, model, maxTokens, outcomes(call));
      calls := calls + [call];
      if answer.Err? {
        PassesStopAfterFailure(prompts, patterns, sub, send, text0, p + 1);
        return Thread(calls, Err(answer.error));
      }
      text := RewriteWithRules(patterns, sub, answer.value);
      p := p + 1;
    }
    assert prompts[..p] == prompts;
    thread := Thread(calls, Ok(text));
  }

  /** `for pat, repl in patterns: text = pat.sub(repl, text)`. */
  method RewriteWithRules(patterns: seq<Rule>, sub: (Rule, string) -> string, text0: string) returns (text: string)
    ensures text == ApplyRules(patterns, sub, text0)
  {
    text := text0;
    var j := 0;
    while j < |patterns|
      invariant 0 <= j <= |patterns|
      invariant text == ApplyRules(patterns[..j], sub, text0)
    {
      assert patterns[..j + 1][..j] == patterns[..j];
      text := sub(patterns[j], text);
      j := j + 1;
    }
    assert patterns[..j] == patterns;
  }

  /** Once a pass fails, the remaining prompts are not sent. */
  lemma {:induction false} PassesStopAfterFailure(prompts: seq<string>, rules: seq<Rule>, sub: (Rule, string) -> string,
                                                  send: Call -> Result<string, Client.ApiError>, text: string, k: nat)
    requires k <= |prompts| && Passes(prompts[..k], rules, sub, send, text).result.Err?
    ensures Passes(prompts, rules, sub, send, text) == Passes(prompts[..k], rules, sub, send, text)
    decreases |prompts| - k
  {
    if k < |prompts| {
      assert prompts[..k + 1][..k] == prompts[..k];
      PassesStopAfterFailure(prompts, rules, sub, send, text, k + 1);
    } else {
      assert prompts[..k] == prompts;
    }
  }
}
