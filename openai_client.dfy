/**
 * The remote client: a chat-completion request retried at most four times
 * with a doubling back-off, the two-message prompt wrapper built on it, and
 * the choice of image payload in an image-generation response.
 */
module OpenAIClient {
  import opened Base
  import opened PyValue

  const MaxAttempts: nat := 4
  const SystemRole: string := "system"
  const UserRole: string := "user"
  const DefaultImageModel: string := "dall-e-3"
  const DefaultImageSize: string := "1024x1024"

  /** What one attempt of the completion call produced. */
  datatype Outcome =
    | Completed(content: string)   // the first choice's message content
    | RateLimit                    // `openai.RateLimitError`
    | Status(code: int)            // any other `openai.APIStatusError`
    | Connection                   // `openai.APIConnectionError`
    | Unexpected                   // any other exception

  /** The exception that leaves `_chat_request`. */
  datatype ApiError =
    | RateLimitError
    | StatusError(code: int)
    | ConnectionError
    | OtherError
    | UnknownError   // `RuntimeError("Unknown error sending prompt")`

  datatype Message = Message(role: string, content: string)

  /** The values of the keyword arguments of one completion request. */
  datatype Param =
    | ModelParam(model: string)
    | MessagesParam(messages: seq<Message>)
    | TemperatureParam(temperature: real)
    | MaxTokensParam(maxTokens: int)

  /** The keyword arguments of one completion request. */
  function RequestParams(model: string, messages: seq<Message>, temperature: real, maxTokens: Option<int>)
    : (params: map<string, Param>)
    ensures "max_tokens" in params <==> maxTokens.Some?
    ensures maxTokens.Some? ==> params["max_tokens"] == MaxTokensParam(maxTokens.value)
    ensures params.Keys == {"model", "messages", "temperature"} + (if maxTokens.Some? then {"max_tokens"} else {})
    ensures "model" in params && params["model"] == ModelParam(model)
    ensures "messages" in params && params["messages"] == MessagesParam(messages)
    ensures "temperature" in params && params["temperature"] == TemperatureParam(temperature)
  {
    var base := map["model" := ModelParam(model), "messages" := MessagesParam(messages),
                    "temperature" := TemperatureParam(temperature)];
    if maxTokens.Some? then base["max_tokens" := MaxTokensParam(maxTokens.value)] else base
  }

  /** A failure that the loop catches and retries. */
  predicate Retriable(o: Outcome)
  {
    o.RateLimit? || o.Connection? || (o.Status? && o.code in {429, 502})
  }

  /** An outcome that ends the loop at once: a success or a failure that is not retried. */
  predicate Decisive(o: Outcome)
  {
    !Retriable(o)
  }

  /** The exception a failed attempt raises. */
  function ErrorOf(o: Outcome): ApiError
    requires !o.Completed?
  {
    match o
    case RateLimit => RateLimitError
    case Status(code) => StatusError(code)
    case Connection => ConnectionError
    case Unexpected => OtherError
  }

  /** How the call ended and how many requests it sent. */
  datatype ChatResult = ChatResult(result: Result<string, ApiError>, attempts: nat)

  /**
   * The loop of `_chat_request` from attempt `attempt` on, `last` being the
   * last failure caught so far.
   */
  function Retry(outcome: nat -> Outcome, attempt: nat, last: Option<ApiError>): (c: ChatResult)
    requires attempt <= MaxAttempts
    decreases MaxAttempts - attempt
  {
    if attempt == MaxAttempts then
      ChatResult(if last.Some? then Err(last.value) else Err(UnknownError), attempt)
    else
      var o := outcome(attempt);
      if o.Completed? then ChatResult(Ok(o.content), attempt + 1)
      else if !Retriable(o) then ChatResult(Err(ErrorOf(o)), attempt + 1)
      else Retry(outcome, attempt + 1, Some(ErrorOf(o)))
  }

  /** One attempt of the loop: it settles the call, or the loop goes on with its failure as the last one. */
  lemma RetryNext(outcome: nat -> Outcome, attempt: nat, last: Option<ApiError>)
    requires attempt < MaxAttempts
    ensures var o := outcome(attempt);
            Retry(outcome, attempt, last) ==
              if o.Completed? then ChatResult(Ok(o.content), attempt + 1)
              else if !Retriable(o) then ChatResult(Err(ErrorOf(o)), attempt + 1)
              else Retry(outcome, attempt + 1, Some(ErrorOf(o)))
  {
  }

  /** The first attempt below `MaxAttempts`, from `from` on, whose outcome is decisive. */
  function FirstDecisive(outcome: nat -> Outcome, from: nat): (k: Option<nat>)
    requires from <= MaxAttempts
    ensures k.Some? ==> from <= k.value < MaxAttempts && Decisive(outcome(k.value))
    ensures k.Some? ==> forall j :: from <= j < k.value ==> Retriable(outcome(j))
    ensures k.None? ==> forall j :: from <= j < MaxAttempts ==> Retriable(outcome(j))
    decreases MaxAttempts - from
  {
    if from == MaxAttempts then None
    else if Decisive(outcome(from)) then Some(from)
    else FirstDecisive(outcome, from + 1)
  }

  /**
   * The retry policy stated directly: the first decisive attempt settles the
   * call; if every attempt is retried, the fourth attempt's failure is raised.
   */
  function Policy(outcome: nat -> Outcome): ChatResult
  {
    match FirstDecisive(outcome, 0)
    case Some(k) =>
      var o := outcome(k);
      ChatResult(if o.Completed? then Ok(o.content) else Err(ErrorOf(o)), k + 1)
    case None => ChatResult(Err(ErrorOf(outcome(MaxAttempts - 1))), MaxAttempts)
  }

  /** The loop, entered after `attempt` retried failures, implements the policy. */
  lemma {:induction false} RetryMatchesPolicy(outcome: nat -> Outcome, attempt: nat, last: Option<ApiError>)
    requires attempt <= MaxAttempts
    requires attempt > 0 ==> Retriable(outcome(attempt - 1)) && last == Some(ErrorOf(outcome(attempt - 1)))
    requires forall j :: 0 <= j < attempt ==> Retriable(outcome(j))
    ensures Retry(outcome, attempt, last) == Policy(outcome)
    decreases MaxAttempts - attempt
  {
    if attempt < MaxAttempts {
      var o := outcome(attempt);
      if Retriable(o) {
        RetryMatchesPolicy(outcome, attempt + 1, Some(ErrorOf(o)));
      } else {
        assert FirstDecisive(outcome, attempt) == Some(attempt);
        FirstDecisiveFrom(outcome, attempt);
      }
    } else {
      FirstDecisiveFrom(outcome, attempt);
    }
  }

  /** The loop's last line, raising "unknown error", is never reached. */
  lemma NeverUnknownError(outcome: nat -> Outcome)
    ensures Retry(outcome, 0, None).result != Err(UnknownError)
  {
    RetryMatchesPolicy(outcome, 0, None);
  }

  /** With every attempt before `from` retried, the search may as well start at `from`. */
  lemma {:induction false} FirstDecisiveFrom(outcome: nat -> Outcome, from: nat)
    requires from <= MaxAttempts
    requires forall j :: 0 <= j < from ==> Retriable(outcome(j))
    ensures FirstDecisive(outcome, 0) == FirstDecisive(outcome, from)
    decreases from
  {
    if from > 0 {
      FirstDecisiveFrom(outcome, from - 1);
      assert !Decisive(outcome(from - 1));
    }
  }

  /** The consequences of the policy the callers rely on. */
  lemma PolicyFacts(outcome: nat -> Outcome)
    ensures 1 <= Policy(outcome).attempts <= MaxAttempts
    ensures var p := Policy(outcome);
            p.result.Ok? <==> outcome(p.attempts - 1).Completed?
    ensures var p := Policy(outcome);
            forall j :: 0 <= j < p.attempts - 1 ==> Retriable(outcome(j))
    ensures outcome(0).Status? && outcome(0).code !in {429, 502} ==>
              Policy(outcome) == ChatResult(Err(StatusError(outcome(0).code)), 1)
    ensures (forall j :: 0 <= j < MaxAttempts ==> Retriable(outcome(j))) ==>
              Policy(outcome) == ChatResult(Err(ErrorOf(outcome(3))), MaxAttempts)
  {
  }

  /** The sleeps requested after the first `n` failed attempts: 1, 2, 4 seconds. */
  function Backoff(n: nat): (delays: seq<nat>)
    ensures |delays| == n
    ensures forall i :: 0 <= i < n ==> delays[i] == Pow2(i)
  {
    if n == 0 then [] else Backoff(n - 1) + [Pow2(n - 1)]
  }

  /**
   * `_chat_request`: `outcome(k)` is what attempt `k` produces; the method
   * returns the result, the requests it sent and the sleeps it requested.
   */
  method ChatRequest(messages: seq<Message>, model: string, temperature: real, maxTokens: Option<int>,
                     outcome: nat -> Outcome)
    returns (r: Result<string, ApiError>, requests: seq<map<string, Param>>, sleeps: seq<nat>)
    ensures ChatResult(r, |requests|) == Policy(outcome)
    ensures 1 <= |requests| <= MaxAttempts
    ensures forall i :: 0 <= i < |requests| ==> requests[i] == RequestParams(model, messages, temperature, maxTokens)
    ensures sleeps == Backoff(|requests| - 1)
  {
    var lastExc: Option<ApiError> := None;
    requests, sleeps := [], [];
    var attempt := 0;
    ghost var sent := RequestParams(model, messages, temperature, maxTokens);
    ghost var settled := Policy(outcome);
    RetryMatchesPolicy(outcome, 0, None);
    while attempt < MaxAttempts
      invariant 0 <= attempt <= MaxAttempts
      invariant |requests| == attempt
      invariant forall i :: 0 <= i < |requests| ==> requests[i] == sent
      invariant attempt < MaxAttempts ==> sleeps == Backoff(attempt)
      invariant attempt == MaxAttempts ==> sleeps == Backoff(MaxAttempts - 1)
      invariant Retry(outcome, attempt, lastExc) == settled
      invariant attempt > 0 ==> lastExc.Some?
    {
      RetryNext(outcome, attempt, lastExc);
      var params := RequestParams(model, messages, temperature, maxTokens);
      requests := requests + [params];
      var o := outcome(attempt);
      match o {
        case Completed(content) =>
          r := Ok(content);
          return;
        case RateLimit =>
          lastExc := Some(RateLimitError);
        case Status(code) =>
          lastExc := Some(StatusError(code));
          if code !in {429, 502} {
            r := Err(StatusError(code));
            return;
          }
        case Connection =>
          lastExc := Some(ConnectionError);
        case Unexpected =>
          r := Err(OtherError);
          return;
      }
      if attempt < 3 {
        sleeps := sleeps + [Pow2(attempt)];
      }
      attempt := attempt + 1;
    }
    if lastExc.Some? {
      r := Err(lastExc.value);
    } else {
      r := Err(UnknownError);
    }
  }

  /** The two messages `send_prompt` sends: the prompt as system text, the content as user text. */
  function PromptMessages(prompt: string, content: string): (m: seq<Message>)
    ensures |m| == 2 && m[0].role == SystemRole && m[1].role == UserRole
    ensures m[0].content == prompt && m[1].content == content
  {
    [Message(SystemRole, prompt), Message(UserRole, content)]
  }

  /** `send_prompt`: one chat request at temperature 1 with the two messages. */
  method SendPrompt(prompt: string, content: string, model: string, maxTokens: Option<int>,
                    outcome: nat -> Outcome)
    returns (r: Result<string, ApiError>, requests: seq<map<string, Param>>, sleeps: seq<nat>)
    ensures ChatResult(r, |requests|) == Policy(outcome)
    ensures 1 <= |requests| <= MaxAttempts && sleeps == Backoff(|requests| - 1)
    ensures forall i :: 0 <= i < |requests| ==>
              requests[i] == RequestParams(model, PromptMessages(prompt, content), 1.0, maxTokens)
  {
    r, requests, sleeps := ChatRequest(PromptMessages(prompt, content), model, 1.0, maxTokens, outcome);
  }

  type Bytes = seq<bv8>

  /** The arguments of `openai.Image.create`. */
  datatype ImageRequest = ImageRequest(prompt: Value, model: string, size: string)

  /** The `data` list of an image response; each node maps field names to strings. */
  datatype ImageResponse = ImageResponse(data: seq<map<string, string>>)

  datatype ImageError =
    | EmptyData     // `resp["data"][0]` on an empty list
    | NoImageData   // `RuntimeError("No image data in API response")`

  /** The payload choice for one response node: a URL first, base64 second. */
  function SelectImage(node: map<string, string>, fetch: string -> Bytes, decode: string -> Bytes)
    : (r: Result<Bytes, ImageError>)
    ensures r.Ok? <==> "url" in node || "b64_json" in node
    ensures "url" in node ==> r == Ok(fetch(node["url"]))
    ensures "url" !in node && "b64_json" in node ==> r == Ok(decode(node["b64_json"]))
    ensures r.Err? ==> r.error == NoImageData
  {
    if "url" in node then Ok(fetch(node["url"]))
    else if "b64_json" in node then Ok(decode(node["b64_json"]))
    else Err(NoImageData)
  }

  /**
   * `generate_image`: one request, no retry; `create` is the remote call,
   * `fetch` downloads a URL's body and `decode` is `base64.b64decode`.
   */
  function GenerateImage(req: ImageRequest, create: ImageRequest -> ImageResponse,
                         fetch: string -> Bytes, decode: string -> Bytes): (r: Result<Bytes, ImageError>)
    ensures create(req).data == [] ==> r == Err(EmptyData)
    ensures create(req).data != [] ==> r == SelectImage(create(req).data[0], fetch, decode)
  {
    var resp := create(req);
    if resp.data == [] then Err(EmptyData)
    else SelectImage(resp.data[0], fetch, decode)
  }
}
