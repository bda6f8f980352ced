# md_batch_gpt, modelled in Dafny

This project models the core of `md_batch_gpt`. The package sends every
Markdown file of a folder through an ordered list of chat prompts, rewrites
each answer with regex rules, and writes the file back. It also generates
images from a prompt file, from JSON entry lists, or from the YAML front
matter of Markdown documents. Two stand-alone scripts from the same
repository are modelled too: one renames Markdown files after their first
`# ` heading, and one strips code-fence wrappers from Markdown files.

Each Python module becomes one Dafny module:

| file | module | what it holds |
|---|---|---|
| `base.dfy` | `Base` | `Option`, `Result` (exceptions become `Err`), discovered text files |
| `text.dfy` | `PyText` | the `str` operations the code relies on: `startswith`, `find`, `split(sep, n)`, `join`, `isspace`, `strip`, `splitlines`, text-mode `readlines`, and `sorted` on strings |
| `values.dfy` | `PyValue` | YAML/JSON values, Python truthiness, `dict.get`, and `str()` inside f-strings |
| `openai_client.dfy` | `OpenAIClient` | the retry loop of `_chat_request`, `send_prompt`, and the payload choice of `generate_image` |
| `orchestrator.dfy` | `Orchestrator` | `process_folder`: the dry run, loading the regex rules, and threading each file through the prompts |
| `markdown_parser.dfy` | `MarkdownParser` | `parse_markdown_image_entries` and its front-matter rules |
| `cli.dfy` | `Cli` | the four commands `run`, `generate-image`, `generate-images` and `generate-images-from-docs` |
| `rename_by_heading.dfy` | `RenameByHeading` | `slugify`, the first-H1 search, and the rename loop |
| `remove_file_wrappers.dfy` | `RemoveFileWrappers` | the trim rule and the cleaning loop |

Everything outside the program is a parameter. Each parameter is a function
value or a list of the outcomes it produced:

- the remote chat call: `outcome(k)` is what attempt `k` produced;
- the image API, `requests.get` and `b64decode`;
- `yaml.safe_load` and `json.loads`;
- `re.compile` (does a pattern compile?) and `pat.sub`;
- `Path.exists`, directory listings, and file contents;
- the Unicode classes behind `\d`, `\w` and `str.lower`.

Effects are returned as data: the requests sent, the sleeps asked for, the
files written, and the lines printed. Loops are methods. Each method is
proved equal to a specification function. The specification function is
defined over the items handled so far, and the lemmas state its
properties.

Where the code and its tests or documentation disagree, the model follows
the code. For example, the Markdown extractor accepts only YAML front
matter, and `generate_image` reads `resp["data"][0]` with no fallback.

## Model

| member | source | states |
|---|---|---|
| PyText.Split | md_batch_gpt/markdown_parser.py:23 | `s.split(sep, n)` yields between 1 and n+1 parts, and joining them with `sep` gives back `s` |
| PyText.Find | md_batch_gpt/markdown_parser.py:23 | `str.find`: the first occurrence of the separator from a position; no earlier occurrence, and none at all when nothing is found |
| PyText.SplitLines | md_batch_gpt/cli.py:100 | `splitlines()` yields single lines, and it yields no line exactly when the text is empty |
| PyText.SplitLinesAfter | md_batch_gpt/cli.py:100-103 | a first line without a terminator, followed by `\n`, is `lines[0]`; the remainder is split on its own |
| PyText.Strip | md_batch_gpt/cli.py:103-104 | `strip()` leaves no whitespace at either end, and it is empty exactly when the text is all whitespace |
| PyText.StripTrailingSpace | md_batch_gpt/cli.py:103-104 | a trailing whitespace character does not change what `strip()` keeps |
| PyText.StripSingleLine | md_batch_gpt/cli.py:103 | stripping a single line leaves a single line |
| PyText.TranslateNewlines | remove-file-wrappers.py:11 | reading in text mode leaves no `\r`, and it leaves a text without `\r` unchanged |
| PyText.ReadLines | remove-file-wrappers.py:12 | `readlines()` concatenates back to the text; every line is non-empty with at most a final `\n`, and every line but the last ends with `\n` |
| PyText.ReadLinesConcat | remove-file-wrappers.py:12 | writing such lines one after another and reading them back gives the same lines |
| PyText.Insert | md_batch_gpt/cli.py:60 | inserting a name into a sorted list keeps it sorted and adds exactly that name |
| PyText.Sort | md_batch_gpt/cli.py:60 | `sorted` on strings returns a sorted permutation of its input |
| PyValue.Truthy | md_batch_gpt/markdown_parser.py:32 | definition: Python truthiness, where `None`, `False`, zero, the empty string and empty containers are false; used by `Cli.ValidEntry`, `MarkdownParser.ParseEntryCases` and `Cli.CheckSpec` |
| PyValue.Get | md_batch_gpt/markdown_parser.py:30-31 | definition: `d.get(key)`, the looked-up value or `None`; properties stated by `PyValue.GetFacts`, `PyValue.LookupFound` and `PyValue.LookupDistinct` |
| PyValue.Keys | md_batch_gpt/markdown_parser.py:36 | the keys of a mapping, one per field, in insertion order |
| PyValue.LookupFound | md_batch_gpt/markdown_parser.py:30-31 | `dict.get` finds a key exactly when it is among the keys, and then returns the value of the first field with that key |
| PyValue.LookupDistinct | md_batch_gpt/markdown_parser.py:30-31 | in a mapping with distinct keys, as every loaded dict has, `dict.get` returns the value stored under the key |
| PyValue.GetFacts | md_batch_gpt/cli.py:143-145 | `d.get(key)` is `None` for a missing key; otherwise it is a value stored under the key |
| PyValue.Render | md_batch_gpt/cli.py:193-198 | an f-string renders a string as the string itself, `None` as `None`, and the booleans as `True` and `False` |
| OpenAIClient.RequestParams | md_batch_gpt/openai_client.py:27-29 | the request has `model`, `messages` and `temperature` with the given values, and has `max_tokens` exactly when one is given |
| OpenAIClient.Retry | md_batch_gpt/openai_client.py:24-45 | definition: the `for attempt in range(4)` loop of `_chat_request`, attempt by attempt; properties stated by `OpenAIClient.RetryMatchesPolicy` and `OpenAIClient.ChatRequest` |
| OpenAIClient.Policy | md_batch_gpt/openai_client.py:24-45 | definition: an independent statement of the retry rules, through the first attempt that settles the call; properties stated by `OpenAIClient.PolicyFacts`, `OpenAIClient.NeverUnknownError` and `OpenAIClient.RetryMatchesPolicy` |
| OpenAIClient.FirstDecisive | md_batch_gpt/openai_client.py:25-39 | finds the first attempt, below four, that succeeds or fails without retry; every earlier attempt was retried |
| OpenAIClient.RetryMatchesPolicy | md_batch_gpt/openai_client.py:24-45 | the loop, entered after retried failures, ends as the policy says: the first decisive attempt settles the call, and four retried failures raise the last one |
| OpenAIClient.NeverUnknownError | md_batch_gpt/openai_client.py:43-45 | the final `RuntimeError("Unknown error ...")` is never raised |
| OpenAIClient.PolicyFacts | md_batch_gpt/openai_client.py:24-45 | 1 to 4 attempts; success exactly when the last attempt completed; every earlier attempt was retried; a first status error other than 429/502 is raised at once; four retried failures raise the fourth |
| OpenAIClient.Backoff | md_batch_gpt/openai_client.py:40-41 | after n failed attempts the sleeps are 1, 2, 4, … seconds, i.e. `2**i` for the i-th |
| OpenAIClient.ChatRequest | md_batch_gpt/openai_client.py:17-45 | the loop returns the policy's result after as many requests as the policy's attempts (1 to 4); every request is the same; it sleeps `2**i` after each failed attempt except the fourth |
| OpenAIClient.PromptMessages | md_batch_gpt/openai_client.py:55-58 | two messages: the prompt as `system`, the content as `user` |
| OpenAIClient.SendPrompt | md_batch_gpt/openai_client.py:48-59 | every attempt sends the same request: the model, the system message with the prompt and the user message with the content, temperature 1, and `max_tokens` exactly when given |
| OpenAIClient.SelectImage | md_batch_gpt/openai_client.py:72-78 | succeeds exactly when the node has `url` or `b64_json`; a URL is fetched in preference to base64; otherwise "no image data" |
| OpenAIClient.GenerateImage | md_batch_gpt/openai_client.py:62-78 | an empty `data` list is an error; otherwise the first node decides, with no retry |
| Orchestrator.Rules | md_batch_gpt/orchestrator.py:48-49 | definition: one rule per key of the regex object, in key order, up to the first pattern that does not compile; properties stated by `Orchestrator.RulesInKeyOrder` and `Orchestrator.RulesErrorSticks` |
| Orchestrator.LoadRules | md_batch_gpt/orchestrator.py:40-49 | definition: no rules without a regex file, the two `BadParameter` errors, and then `Rules`; properties stated by `Orchestrator.LoadPatterns` and `Orchestrator.ProcessFolder` |
| Orchestrator.RulesInKeyOrder | md_batch_gpt/orchestrator.py:48-49 | the rules load exactly when every pattern compiles, and then there is one rule per key, in key order, with `str(repl)` |
| Orchestrator.RulesErrorSticks | md_batch_gpt/orchestrator.py:48-49 | after a pattern fails to compile, later keys do not matter |
| Orchestrator.LoadPatterns | md_batch_gpt/orchestrator.py:40-49 | the loading block: no rules without a file, an error for invalid JSON or a non-object, otherwise the rules of the keys |
| Orchestrator.ApplyRules | md_batch_gpt/orchestrator.py:57-58 | definition: each rule's `pat.sub` applied to the previous output; properties stated by `Orchestrator.ApplyRulesFirstRuleFirst` and `Orchestrator.RewriteWithRules` |
| Orchestrator.ApplyRulesFirstRuleFirst | md_batch_gpt/orchestrator.py:57-58 | the rules apply in list order, the first rule to the answer and each later rule to the previous output |
| Orchestrator.RewriteWithRules | md_batch_gpt/orchestrator.py:57-58 | the `pat.sub` loop applies every rule in order |
| Orchestrator.Passes | md_batch_gpt/orchestrator.py:53-58 | definition: the prompt passes over one file, each sending the previous rewritten answer; properties stated by `Orchestrator.PassesThread`, `Orchestrator.PassesStopAfterFailure` and `Orchestrator.RunPasses` |
| Orchestrator.PassesThread | md_batch_gpt/orchestrator.py:52-58 | call k sends prompt k; the first call sends the file text, and each later call sends the previous answer after all rules; success means every prompt was answered, and the final text is the last rewritten answer (the original text when there are no prompts) |
| Orchestrator.PassesStopAfterFailure | md_batch_gpt/orchestrator.py:53-56 | once a call fails, no later prompt is sent |
| Orchestrator.RunPasses | md_batch_gpt/orchestrator.py:52-58 | the prompt loop for one file makes exactly the threaded calls |
| Orchestrator.RunFiles | md_batch_gpt/orchestrator.py:51-59 | definition: the files in discovery order, each threaded through the prompts and then written; properties stated by `Orchestrator.RunFilesWrites`, `Orchestrator.NoPromptsWriteBack`, `Orchestrator.RunErrorSticks` and `Orchestrator.ProcessFolder` |
| Orchestrator.RunFilesWrites | md_batch_gpt/orchestrator.py:51-59 | write i goes to file i with its final text; a run succeeds exactly when every file is written once; a failure is the failure of the first file not written |
| Orchestrator.NoPromptsWriteBack | md_batch_gpt/orchestrator.py:51-59 | with no prompts, nothing is sent and every file is written back unchanged |
| Orchestrator.RunErrorSticks | md_batch_gpt/orchestrator.py:51-59 | once a file fails, the run is over |
| Orchestrator.Listing | md_batch_gpt/orchestrator.py:35-36 | the dry run prints one line per file, in discovery order |
| Orchestrator.ProcessFolder | md_batch_gpt/orchestrator.py:13-59 | no files: one notice and nothing else; dry run: the listing plus the prompt count, with no call or write; bad rules: the error, before any call; otherwise exactly the calls and writes of the threaded run |
| MarkdownParser.SplitAfterOpening | md_batch_gpt/markdown_parser.py:23-26 | on a text opening with `---`, `split("---", 2)` has three parts exactly when `---` occurs again from index 3, and the middle part runs up to that occurrence |
| MarkdownParser.FrontMatter | md_batch_gpt/markdown_parser.py:21-26 | the only errors are "missing front matter" and "missing closing delimiter"; a block found is enclosed by the two delimiters at the start of the text |
| MarkdownParser.FrontMatterCases | md_batch_gpt/markdown_parser.py:21-26 | missing front matter exactly when the text does not open with `---`; missing closing delimiter exactly when no `---` follows; the block ends at the first `---` after the opening one |
| MarkdownParser.FrontMatterRoundTrip | md_batch_gpt/markdown_parser.py:21-26 | `---` + block + `---` + body yields the block, when the block does not run into a `---` |
| MarkdownParser.ParseEntry | md_batch_gpt/markdown_parser.py:21-36 | an accepted file yields a mapping with exactly the keys `expected_filename` and `summary`, in that order |
| MarkdownParser.LoadOrEmpty | md_batch_gpt/markdown_parser.py:27 | definition: `yaml.safe_load(fm_text) or {}`, with a YAML error as `InvalidYaml`; properties stated by `MarkdownParser.ParseEntryCases` |
| MarkdownParser.ParseEntryCases | md_batch_gpt/markdown_parser.py:21-36 | a front-matter error passes through; a YAML error is refused with its message; a falsy document counts as `{}` and lacks the keys; a non-mapping is refused; a mapping is accepted exactly when both keys are truthy, and it yields the two-key entry |
| MarkdownParser.MissingKeyRejected | md_batch_gpt/markdown_parser.py:30-35 | a mapping lacking either key is refused, whatever else it holds |
| MarkdownParser.WellFormedDocument | md_batch_gpt/markdown_parser.py:21-36 | a well-formed document yields exactly its filename and summary, whatever the other keys and the body |
| MarkdownParser.Entries | md_batch_gpt/markdown_parser.py:18-37 | definition: the entries of the files in discovery order, up to the first file refused; properties stated by `MarkdownParser.EntriesSucceed`, `MarkdownParser.EntriesFailAtFirstBadFile`, `MarkdownParser.EntriesErrorSticks` and `MarkdownParser.ParseMarkdownImageEntries` |
| MarkdownParser.EntriesSucceed | md_batch_gpt/markdown_parser.py:18-37 | the call succeeds exactly when every file parses, and then it returns one entry per file, in discovery order |
| MarkdownParser.EntriesFailAtFirstBadFile | md_batch_gpt/markdown_parser.py:19-35 | a failure names the first rejected file, with its reason |
| MarkdownParser.EntriesErrorSticks | md_batch_gpt/markdown_parser.py:19-35 | once a file is rejected, later files do not change the outcome |
| MarkdownParser.ParseMarkdownImageEntries | md_batch_gpt/markdown_parser.py:10-37 | the loop computes the file-by-file specification |
| Cli.Validated | md_batch_gpt/cli.py:15-20 | the paths come back unchanged exactly when all exist; otherwise the error names the first missing path |
| Cli.ValidatePrompts | md_batch_gpt/cli.py:15-20 | the validation loop computes that result |
| Cli.ValidatedFailsAt | md_batch_gpt/cli.py:17-19 | the first missing path is the one reported |
| Cli.TxtNames | md_batch_gpt/cli.py:60 | `glob("*.txt")` keeps exactly the listed names ending in `.txt` |
| Cli.PathsIn | md_batch_gpt/cli.py:59-60 | each name, in order, prefixed with the directory |
| Cli.LexLeCommonPrefix | md_batch_gpt/cli.py:60 | a common directory prefix does not change the order of two paths |
| Cli.PromptPaths | md_batch_gpt/cli.py:57-66 | the validated `--prompts` when any are given; otherwise an error exactly when the default directory has no `*.txt`, and else the sorted paths of exactly those files |
| Cli.ReadAll | md_batch_gpt/orchestrator.py:27-29 | one prompt text per path, in order |
| Cli.Run | md_batch_gpt/cli.py:26-84 | a prompt error stops `run` before any file; with no files it reports the empty folder and succeeds; the dry run reports the files and the number of prompts; a bad regex file fails before any call; otherwise the calls and writes are those of threading each file through the chosen prompts' texts, and the command fails exactly when a remote call does, with that error |
| Cli.PromptFile | md_batch_gpt/cli.py:99-108 | an empty file is refused; a blank first line is refused; a missing prompt is refused exactly when the first line is not blank and the rest strips to nothing; a result comes exactly when neither is blank, and it holds the stripped first line, as a non-empty single line, and the stripped rest joined by `\n` |
| Cli.JoinSplitLines | md_batch_gpt/cli.py:100-104 | joining the lines of a text whose only line ends are `\n` gives the text back, less one final `\n` |
| Cli.StripJoinedLines | md_batch_gpt/cli.py:100-104 | the prompt read back from a body's lines and stripped is the body stripped, whether or not it ends in `\n` |
| Cli.PromptFileRoundTrip | md_batch_gpt/cli.py:99-108 | writing a filename line, then any prompt whose line ends are `\n`, and reading the file back gives the filename and the stripped prompt |
| Cli.GenerateImageCommand | md_batch_gpt/cli.py:87-114 | a refused file makes no call; otherwise one image call with the prompt, and the image is written under the filename when it succeeds |
| Cli.Produce | md_batch_gpt/cli.py:151-152 | one call; the image is written under the filename exactly when it comes back and the filename is a string; a failed call is the image error, and a non-string filename fails after the call, as `Path(filename)` raises `TypeError` |
| Cli.EntryStep | md_batch_gpt/cli.py:140-152 | a non-object entry or one missing a truthy key is refused with its index, before any call; a valid entry is generated from its summary and written under its filename, which must be a string |
| Cli.EntriesRun | md_batch_gpt/cli.py:140-154 | definition: the entries of one JSON list in order, each checked, generated and written, up to the first failure; properties stated by `Cli.EntriesRunInOrder`, `Cli.EntriesRunRejects`, `Cli.EntriesRunErrorSticks`, `Cli.EntriesWritten` and `Cli.GenerateEntries` |
| Cli.EntriesRunInOrder | md_batch_gpt/cli.py:140-154 | calls follow the valid entries in order, each with its summary and the same model and size; write i is entry i's image under entry i's filename, a string; the file succeeds exactly when every entry is written |
| Cli.EntriesRunRejects | md_batch_gpt/cli.py:141-148 | a bad entry stops the file; the entries before it stay generated and written |
| Cli.EntriesRunErrorSticks | md_batch_gpt/cli.py:140-154 | after a failure no later entry is looked at |
| Cli.FileStep | md_batch_gpt/cli.py:132-140 | invalid JSON or a non-list is refused before any call; otherwise the file's entries are handled |
| Cli.FilesRun | md_batch_gpt/cli.py:129-154 | definition: the JSON files in the given order, each through `Cli.FileStep`, up to the first failure; properties stated by `Cli.FilesRunInOrder`, `Cli.FilesRunFailsAt`, `Cli.FilesRunErrorSticks` and `Cli.GenerateImages` |
| Cli.FilesRunErrorSticks | md_batch_gpt/cli.py:129-154 | after a failure no later file is read |
| Cli.FilesRunInOrder | md_batch_gpt/cli.py:129-154 | a successful run read a list from every file; call i is made from entry i of the concatenated lists, a valid entry, and write i is its image under its string filename |
| Cli.AllWrittenJoin | md_batch_gpt/cli.py:129-154 | two runs that each generated and wrote all their entries, one after the other, generated and wrote all the entries of both |
| Cli.EntriesWritten | md_batch_gpt/cli.py:140-154 | a file whose entries all succeed generated and wrote every entry, in order |
| Cli.FilesRunFailsAt | md_batch_gpt/cli.py:129-154 | a failed run stopped at one file: every file before it was read and wholly generated and written, that file's own steps failed, and the run is exactly those files followed by those steps |
| Cli.GenerateImages | md_batch_gpt/cli.py:117-154 | the nested loops compute the file-by-file specification |
| Cli.GenerateEntries | md_batch_gpt/cli.py:140-154 | the entry loop computes the entry-by-entry specification |
| Cli.SpecsOf | md_batch_gpt/cli.py:179 | a list is taken as it is; anything else becomes a one-element list |
| Cli.CheckSpec | md_batch_gpt/cli.py:181-186 | a spec passes exactly when it is an object with truthy filename and summary, and it passes unchanged |
| Cli.CheckSpecs | md_batch_gpt/cli.py:180-187 | a file's specs pass exactly when all are valid, and they pass unchanged |
| Cli.CheckSpecsFailsAt | md_batch_gpt/cli.py:180-186 | the first bad spec's error is the one raised |
| Cli.CheckFileSpecs | md_batch_gpt/cli.py:180-187 | the spec loop computes that check |
| Cli.FileSpecs | md_batch_gpt/cli.py:172-187 | invalid JSON is refused; otherwise the file's specs are checked |
| Cli.Merge | md_batch_gpt/cli.py:169-187 | definition: the Markdown entries followed by each `*.json` file's checked specs, up to the first refused file; properties stated by `Cli.MergeOrder`, `Cli.MergeParsed`, `Cli.MergeChecked`, `Cli.MergeErrorSticks` and `Cli.MergeJson` |
| Cli.MergeOrder | md_batch_gpt/cli.py:169-187 | a successful merge is the Markdown entries, then every JSON file's specs in order |
| Cli.MergeParsed | md_batch_gpt/cli.py:171-177 | a merge succeeds only when every JSON file parsed |
| Cli.MergeChecked | md_batch_gpt/cli.py:179-187 | every spec a successful merge keeps is an object with truthy filename and summary |
| Cli.MergeErrorSticks | md_batch_gpt/cli.py:171-187 | after a refused file no later file changes the outcome |
| Cli.MergeJson | md_batch_gpt/cli.py:171-187 | the `*.json` loop computes the merge |
| Cli.MergedAreObjects | md_batch_gpt/cli.py:169-190 | every merged entry is an object, so `entry["expected_filename"]` is well-defined |
| Cli.DocHead | md_batch_gpt/cli.py:192-195 | definition: the filename, alt-text and summary part of the template; used by `Cli.DocPromptTemplate` |
| Cli.LessonLine | md_batch_gpt/cli.py:196-199 | definition: the `(Lesson n: title)` line, rendering a missing field as `None`; used by `Cli.DocPromptTemplate` |
| Cli.DocPrompt | md_batch_gpt/cli.py:191-201 | definition: the summary, or the alt-text template when `alt_text` is truthy; properties stated by `Cli.DocPromptTemplate` and `Cli.DocRequests` |
| Cli.DocPromptTemplate | md_batch_gpt/cli.py:189-201 | without alt text the summary is the prompt; with alt text the prompt is the head with the filename, alt text and summary, followed by the lesson line exactly when a lesson number or title is truthy, and by nothing else |
| Cli.DocRequests | md_batch_gpt/cli.py:189-204 | one image request per merged entry, in order, with the entry's prompt, model and size |
| Cli.Filenames | md_batch_gpt/cli.py:190 | each merged entry's `expected_filename`, in order |
| Cli.ProduceAll | md_batch_gpt/cli.py:189-207 | definition: the image calls in order, each written under its name, up to the first failure; properties stated by `Cli.ProduceAllInOrder` and `Cli.ProduceAllErrorSticks` |
| Cli.ProduceAllInOrder | md_batch_gpt/cli.py:189-207 | the calls are the requests in order, up to and including the first that fails; every call before it wrote its image under its name, which is a string |
| Cli.ProduceAllErrorSticks | md_batch_gpt/cli.py:204 | after a failed image call nothing more is generated |
| Cli.DocsRun | md_batch_gpt/cli.py:189-207 | definition: `Cli.ProduceAll` over the merged entries' requests and filenames; properties stated by `Cli.DocsRunInOrder` and `Cli.GenerateDocs` |
| Cli.DocsRunInOrder | md_batch_gpt/cli.py:189-207 | one call per merged entry, in merged order, with the template prompt; each image is written under its entry's filename, a string; success exactly when every entry is written |
| Cli.GenerateImagesFromDocs | md_batch_gpt/cli.py:157-207 | a parse or merge error comes before any image call; otherwise the generation loop runs over the merged, all-object entry list |
| Cli.GenerateDocs | md_batch_gpt/cli.py:189-207 | the generation loop computes that specification |
| RenameByHeading.MatchModule | rename_by_heading.py:6-8 | a match has non-empty digit runs for major and minor, and a title with no newline; the text starts with major, `.`, minor, some whitespace and the title |
| RenameByHeading.MatchModuleFinds | rename_by_heading.py:6-8 | a heading written as digits, `.`, digits, whitespace and a title line is matched with exactly those groups |
| RenameByHeading.KeepSlugChars | rename_by_heading.py:16 | keeps exactly the word characters, whitespace and `-` |
| RenameByHeading.KeepSlugCharsAppend | rename_by_heading.py:16 | the filter works character by character: the filtered parts of a text, joined, are the filtered text |
| RenameByHeading.KeepSlugCharsOne | rename_by_heading.py:16 | one character is kept exactly when it is a word character, whitespace or `-` |
| RenameByHeading.DashSpaces | rename_by_heading.py:17 | leaves no whitespace, adds nothing but `-`, and is empty only for empty input |
| RenameByHeading.DashSpacesKeeps | rename_by_heading.py:17 | a character that is not whitespace passes through unchanged, and the text on either side of it is replaced separately |
| RenameByHeading.DashSpacesRun | rename_by_heading.py:17 | a whole run of whitespace, however long, becomes a single `-` |
| RenameByHeading.DashSpacesKeepsChars | rename_by_heading.py:17 | every character that is not whitespace is kept |
| RenameByHeading.CollapseDashes | rename_by_heading.py:18 | leaves no `--`, keeps the same characters and the first character |
| RenameByHeading.CollapseDashesKeeps | rename_by_heading.py:18 | a character other than `-` passes through unchanged, and the text on either side of it is collapsed separately |
| RenameByHeading.CollapseDashesRun | rename_by_heading.py:18 | a whole run of `-`, however long, becomes a single `-` |
| RenameByHeading.CollapseDashesFixed | rename_by_heading.py:18 | a text without `--` is left as it is |
| RenameByHeading.CollapseDashesIdempotent | rename_by_heading.py:18 | collapsing twice is collapsing once |
| RenameByHeading.Slugify | rename_by_heading.py:4-20 | a slug never starts or ends with `-` |
| RenameByHeading.SlugTitle | rename_by_heading.py:15-18 | definition: strip, lowercase, filter, dash the spaces and collapse the dashes; properties stated by `RenameByHeading.SlugTitleShape` and the `KeepSlugChars`, `DashSpaces` and `CollapseDashes` rows |
| RenameByHeading.SlugTitleShape | rename_by_heading.py:15-18 | the title part holds only word characters and single dashes, and no whitespace |
| RenameByHeading.SlugShape | rename_by_heading.py:4-20 | a slug holds only word characters, module digits and `-`, and no whitespace |
| RenameByHeading.SlugNumbered | rename_by_heading.py:6-9 | a numbered heading's slug starts with `major-minor` |
| RenameByHeading.SlugUnnumbered | rename_by_heading.py:10-20 | without a module number the empty prefix leaves no trace: the slug is the title part stripped of `-` |
| RenameByHeading.HeadingText | rename_by_heading.py:30 | `lstrip('# ').strip()` leaves no whitespace at either end and adds no character |
| RenameByHeading.FirstH1 | rename_by_heading.py:28-31 | finds the first `# ` line; no earlier line is one |
| RenameByHeading.Heading | rename_by_heading.py:27-34 | definition: the heading text of the first `# ` line, or none; properties stated by `RenameByHeading.FindHeading` and `RenameByHeading.TargetNameFirstHeading` |
| RenameByHeading.FindHeading | rename_by_heading.py:27-34 | the line loop breaks at the first heading and yields its text, or nothing |
| RenameByHeading.TargetName | rename_by_heading.py:27-37 | a file with a heading asks for a `.md` name |
| RenameByHeading.TargetNameFirstHeading | rename_by_heading.py:27-37 | a file has a target exactly when one of its lines starts with `# `, and the target is the slug of the first such line's heading text, with `.md` |
| RenameByHeading.Rename | rename_by_heading.py:41 | `os.rename` moves the text to the new name, replacing what was there, and leaves every other file alone |
| RenameByHeading.RenameStep | rename_by_heading.py:27-44 | definition: one present `.md` file, reported without a heading, renamed to its target, or reported as already named; properties stated by `RenameByHeading.RenameStepKeeps` and `RenameByHeading.RenameOne` |
| RenameByHeading.RenameAll | rename_by_heading.py:22-44 | definition: the listed names in order, up to a listed `.md` file that cannot be opened; properties stated by `RenameByHeading.RenameKeepsTexts`, `RenameByHeading.ListedFilesStayReadable`, `RenameByHeading.RenameAllErrorSticks` and `RenameByHeading.RenameMarkdownFilesInFolder` |
| RenameByHeading.RenameStepKeeps | rename_by_heading.py:36-44 | one step keeps every other file; every text it leaves is a text it found; non-`.md` names are untouched |
| RenameByHeading.RenameKeepsTexts | rename_by_heading.py:22-44 | renaming never changes a text, and it leaves files whose names do not end in `.md` alone |
| RenameByHeading.ListedFilesStayReadable | rename_by_heading.py:23-27 | with the listing `os.listdir` gives, no listed file is gone when the loop reaches it |
| RenameByHeading.RenameAllErrorSticks | rename_by_heading.py:23-27 | once a listed `.md` file cannot be opened, the loop is over and later names do not matter |
| RenameByHeading.RenameMarkdownFilesInFolder | rename_by_heading.py:22-44 | the loop computes the file-by-file specification |
| RenameByHeading.RenameOne | rename_by_heading.py:25-44 | the body for one present `.md` file computes that file's step |
| RemoveFileWrappers.Lead | remove-file-wrappers.py:15-17 | at most the first line goes, and it goes exactly when, stripped, it is a start token |
| RemoveFileWrappers.Trim | remove-file-wrappers.py:15-19 | the result is the lines after the lead, in order, minus at most the last one; the last is cut exactly when, stripped, it is an end token |
| RemoveFileWrappers.TrimUnwraps | remove-file-wrappers.py:15-19 | a body between an opening and a closing fence comes out alone |
| RemoveFileWrappers.TrimBoth | remove-file-wrappers.py:15-19 | with both fences present, both go and nothing else does |
| RemoveFileWrappers.TrimUnchanged | remove-file-wrappers.py:15-21 | the lines change exactly when the first line opens or the last line closes |
| RemoveFileWrappers.TrimLoneFence | remove-file-wrappers.py:18-19 | a file holding only a closing fence is emptied |
| RemoveFileWrappers.TrimKeepsBareFirstFence | remove-file-wrappers.py:4-16 | a bare opening fence is not a start token, so it stays as the first line |
| RemoveFileWrappers.CleanedText | remove-file-wrappers.py:11-23 | a file is skipped exactly when neither wrapper line is present |
| RemoveFileWrappers.CleanedUnwraps | remove-file-wrappers.py:11-23 | cleaning a body wrapped in a start and an end fence gives back the body |
| RemoveFileWrappers.CleanAll | remove-file-wrappers.py:7-26 | definition: the listed names in order, each `.md` file rewritten with its cleaned text when cleaning changed it, up to one that cannot be opened; properties stated by `RemoveFileWrappers.CleanAllFiles`, `RemoveFileWrappers.CleanAllErrorSticks` and `RemoveFileWrappers.CleanFileWrappers` |
| RemoveFileWrappers.CleanAllFiles | remove-file-wrappers.py:7-26 | with the listing `os.listdir` gives, no file goes missing or appears; a listed `.md` file holds its cleaned text when cleaning changed it, and every other file keeps its text |
| RemoveFileWrappers.CleanAllErrorSticks | remove-file-wrappers.py:7-12 | once a listed `.md` file cannot be opened, the loop is over and later names do not matter |
| RemoveFileWrappers.CleanFileWrappers | remove-file-wrappers.py:3-26 | the loop computes the file-by-file specification |

## Left out

- File reading, writing and directory traversal are parameters or inputs: the discovered files with their texts, listings, and `Path.exists`. `iter_markdown_files` and `write_atomic` live in `md_batch_gpt/file_io.py`, which is not part of this model. A file that cannot be read or decoded (the UTF-8 `errors="replace"` decoding) is not modelled.
- YAML and JSON parsing (`yaml.safe_load`, `json.loads`) are parameters that return a value or the message of a decode error. A `yaml.YAMLError` refuses the document (`InvalidYaml`), and a `json.JSONDecodeError` refuses the file (`InvalidJson`). A loader builds a dict, so its keys are distinct.
- Exceptions raised inside `openai.Image.create`, `requests.get` and `base64.b64decode` are not modelled: those three are total parameters. Only the two failures `generate_image` raises itself are modelled: an empty `data` list and a node with neither `url` nor `b64_json`.
- `pat.sub` is a total parameter, so a `re.error` raised at substitution time, such as a bad group reference in a replacement, is not modelled.
- OpenAIClient.SendPrompt: a completion whose `message.content` is `None` is not modelled. The content is always a string.
- `re.compile`, `pat.sub`, and the Unicode tables behind `\d`, `\w` and `str.lower` are parameters. `\s` and `isspace` use Python's whitespace table written out.
- The remote services (chat completion, image creation, `requests.get`) and `base64.b64decode` are parameters. `time.sleep` is returned as the list of requested delays. An HTTP error status from `requests.get` is not checked by the code, and it is not modelled either.
- The `--verbose` echo lines of every command and the final `Done` are left out. The model has no terminal output except the lines `process_folder` prints and the two scripts' reports, which are returned as event lists.
- `str(x)` of floats, lists and mappings in f-strings is a parameter (`repr`). Strings, integers, booleans and `None` are rendered concretely.
- `sorted` on `Path` objects compares path components. The model sorts the file names and then prefixes the directory. `Cli.LexLeCommonPrefix` shows that this prefixing keeps the order.
- Directories inside a listing are not distinguished from files: a listed name is a file of the folder's map.
- The two scripts' module-level calls on `./docs` (`rename_by_heading.py:47`, `remove-file-wrappers.py:29`) are left out, since the folder is a parameter.
- typer's own argument checks (`exists=True`, `dir_okay`) happen before the commands run and are not modelled.
- OpenAIClient.ChatRequest: the outcomes of the remote call are a function of the attempt number, so the model does not express that a real service may behave differently across calls with the same request.
- RenameByHeading.Rename: `os.rename` onto an existing name replaces it, as on POSIX. Windows would raise instead.
- RemoveFileWrappers.CleanedText: the cleaned lines are written back as they are, as on POSIX. In text mode on Windows, `f.writelines` would write each `\n` as `\r\n`.
