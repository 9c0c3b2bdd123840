/** The adapter around the remote inference call: how the request body is shaped
    for a model ARN, the one inference-profile retry, how the reply text is read
    from the response, and how a failure is reported. The call itself is a
    parameter (`Invoker`): given a model id and a body it yields the parsed
    response or the text of the error it raised. */
module Inference {
  import opened Wrappers
  import opened Text
  import opened Json
  import opened Chat

  const AnthropicVersion := "bedrock-2023-05-31"
  const MaxTokens := 4096
  const AnthropicMarker := "anthropic"
  const OpusMarker := "anthropic.claude-opus-4"
  const ProfileMarker := "inference profile"
  const ProfilePrefix := "inference-profile-"
  const TranscriptSeparator := "\n\n"
  /** The response fields tried, in this order, for a non-Anthropic model. */
  const GenericReplyKeys := ["generation", "output", "text"]
  /** Stand-in for the text of the runtime error raised when an Anthropic
      response has no `content[0]` object to read. */
  const MalformedReply := "malformed model response"
  /** Stand-in for the storage error raised when the reply is not text. */
  const NonTextReply := "model reply is not text"
  /** The explanation shown instead of any error that mentions an inference profile. */
  const ProfileHint := HintOpening + ProfileMarker + HintClosing
  const HintOpening := "This model (Claude Opus 4) requires an "
  const HintClosing := ". Please create an inference profile in the AWS Bedrock console and use the complete inference profile ARN instead of the model ID. Format should be: arn:aws:bedrock:[region]:[account-id]:inference-profile/[profile-name]"

  datatype RequestBody =
    | Structured(version: string, maxTokens: nat, messages: seq<Message>)
    | Prompt(prompt: string, maxTokens: nat)

  /** The remote call: model id and body to parsed response or error text. */
  type Invoker = (string, RequestBody) -> Result<Json, string>

  predicate IsAnthropic(arn: string) {
    Contains(Lower(arn), AnthropicMarker)
  }

  /** One transcript line, `"role: content"`. */
  function Line(m: Message): string {
    RoleName(m.role) + ": " + m.content
  }

  function Lines(history: seq<Message>): (r: seq<string>)
    ensures |r| == |history|
    ensures forall i :: 0 <= i < |history| ==> r[i] == Line(history[i])
  {
    seq(|history|, i requires 0 <= i < |history| => Line(history[i]))
  }

  /** The flattened prompt for models without a structured message API. */
  function Transcript(history: seq<Message>): string {
    Join(TranscriptSeparator, Lines(history))
  }

  /** The request body for a model: Anthropic models get the message list
      itself, every other model a flattened transcript; both ask for at most
      4096 output tokens. */
  function ShapeRequest(arn: string, history: seq<Message>): (r: RequestBody)
    ensures r.maxTokens == MaxTokens
    ensures r.Structured? <==> IsAnthropic(arn)
    ensures r.Structured? ==> r.messages == history && r.version == AnthropicVersion
    ensures r.Prompt? ==> r.prompt == Transcript(history)
  {
    if IsAnthropic(arn) then Structured(AnthropicVersion, MaxTokens, history)
    else Prompt(Transcript(history), MaxTokens)
  }

  /** The transcript of `n` messages is their `n` lines with `n - 1`
      separators between them, and nothing else. */
  lemma TranscriptLength(history: seq<Message>)
    requires |history| > 0
    ensures |Transcript(history)| == TotalLength(Lines(history)) + (|history| - 1) * |TranscriptSeparator|
  {
    JoinLength(TranscriptSeparator, Lines(history));
  }

  /** The transcript opens with the first message's line; each later message
      follows one separator. */
  lemma TranscriptCons(m: Message, history: seq<Message>)
    requires |history| > 0
    ensures Transcript([m] + history) == Line(m) + TranscriptSeparator + Transcript(history)
  {
    assert Lines([m] + history) == [Line(m)] + Lines(history);
    JoinCons(TranscriptSeparator, Line(m), Lines(history));
  }

  /** A single user message "Hello" is sent as the prompt "user: Hello". */
  lemma TranscriptOfHello()
    ensures Transcript([Message(User, "Hello")]) == "user: Hello"
  {
  }

  /** The retry is wanted when the error mentions an inference profile and the
      model is a Claude Opus 4 model. */
  predicate WantsProfileRetry(arn: string, error: string) {
    Contains(Lower(error), ProfileMarker) && Contains(Lower(arn), OpusMarker)
  }

  /** The id tried on the retry: the last `:`-separated segment of the ARN after
      a fixed prefix. */
  function ProfileId(arn: string): (r: string)
    ensures IsPrefix(ProfilePrefix, r)
    ensures var tail := r[|ProfilePrefix|..];
            && ':' !in tail
            && |tail| <= |arn| && tail == arn[|arn| - |tail|..]
            && (|tail| < |arn| ==> arn[|arn| - |tail| - 1] == ':')
  {
    var tail := LastSegment(arn, ':');
    assert (ProfilePrefix + tail)[..|ProfilePrefix|] == ProfilePrefix;
    assert (ProfilePrefix + tail)[|ProfilePrefix|..] == tail;
    ProfilePrefix + tail
  }

  /** What one call of the adapter did: the outcome and the ids it sent requests to. */
  datatype Invocation = Invocation(outcome: Result<Json, string>, attempts: seq<string>)

  /** Calls the model, retrying once with the derived inference-profile id when
      the first error asks for one on a Claude Opus 4 model. Any other error,
      and the retry's own error, is passed on unchanged. */
  function InvokeWithProfileRetry(invoke: Invoker, arn: string, body: RequestBody): (r: Invocation)
    ensures 1 <= |r.attempts| <= 2 && r.attempts[0] == arn
    ensures |r.attempts| == 2 <==> invoke(arn, body).Failure? && WantsProfileRetry(arn, invoke(arn, body).error)
    ensures |r.attempts| == 2 ==> r.attempts[1] == ProfileId(arn)
    ensures r.outcome == invoke(r.attempts[|r.attempts| - 1], body)
  {
    match invoke(arn, body)
    case Success(response) => Invocation(Success(response), [arn])
    case Failure(error) =>
      if WantsProfileRetry(arn, error) then
        var retryId := ProfileId(arn);
        Invocation(invoke(retryId, body), [arn, retryId])
      else Invocation(Failure(error), [arn])
  }

  /** A retry only ever happens for an Anthropic model, so it always re-sends a
      structured message list. */
  lemma RetryOnlyForAnthropic(invoke: Invoker, arn: string, history: seq<Message>)
    ensures var body := ShapeRequest(arn, history);
            |InvokeWithProfileRetry(invoke, arn, body).attempts| == 2 ==> body.Structured?
  {
    var body := ShapeRequest(arn, history);
    if |InvokeWithProfileRetry(invoke, arn, body).attempts| == 2 {
      assert IsPrefix(AnthropicMarker, OpusMarker);
      ContainsTransitive(Lower(arn), OpusMarker, AnthropicMarker);
    }
  }

  /** The Anthropic response shape: `content[0].text` is a string. */
  ghost predicate ClaudeText(body: Json, text: string) {
    && body.JObj?
    && "content" in body.fields
    && body.fields["content"].JArr?
    && |body.fields["content"].items| > 0
    && body.fields["content"].items[0].JObj?
    && "text" in body.fields["content"].items[0].fields
    && body.fields["content"].items[0].fields["text"] == JStr(text)
  }

  /** `body.get('content')[0].get('text')`: indexing anything but a non-empty
      list whose first element is an object raises. */
  function ClaudeReply(body: Json): Result<Json, string> {
    if !body.JObj? || "content" !in body.fields then Failure(MalformedReply)
    else match body.fields["content"]
      case JArr(items) =>
        if |items| > 0 && items[0].JObj? then Success(Get(items[0].fields, "text", JNull))
        else Failure(MalformedReply)
      case _ => Failure(MalformedReply)
  }

  /** `body.get('generation', body.get('output', body.get('text', str(body))))`. */
  function GenericReply(body: Json, stringify: Json -> string): Result<Json, string> {
    if !body.JObj? then Failure(MalformedReply)
    else
      var f := body.fields;
      Success(Get(f, "generation", Get(f, "output", Get(f, "text", JStr(stringify(body))))))
  }

  /** The nested look-ups take the first present field among `generation`,
      `output` and `text`, and fall back to the stringified body. */
  lemma GenericReplyIsFirstPresent(body: Json, stringify: Json -> string)
    requires body.JObj?
    ensures GenericReply(body, stringify) == Success(FirstPresent(body.fields, GenericReplyKeys).GetOr(JStr(stringify(body))))
  {
    var f := body.fields;
    var keys := GenericReplyKeys;
    assert keys[0] == "generation" && keys[1..] == ["output", "text"];
    assert keys[1..][1..] == ["text"] && keys[1..][1..][1..] == [];
    if "generation" !in f {
      assert FirstPresent(f, keys) == FirstPresent(f, keys[1..]);
      if "output" !in f {
        assert FirstPresent(f, keys[1..]) == FirstPresent(f, keys[1..][1..]);
        if "text" !in f {
          assert FirstPresent(f, keys[1..][1..]) == FirstPresent(f, keys[1..][1..][1..]);
        }
      }
    }
  }

  /** A reply becomes message content only when it is text. */
  function AsText(reply: Json): Result<string, string> {
    match reply
    case JStr(s) => Success(s)
    case _ => Failure(NonTextReply)
  }

  /** `ClaudeReply` yields text exactly for the Anthropic response shape. */
  lemma ClaudeReplyShape(body: Json)
    ensures (exists t :: ClaudeText(body, t)) <==> ClaudeReply(body).Success? && ClaudeReply(body).value.JStr?
    ensures ClaudeReply(body).Success? && ClaudeReply(body).value.JStr? ==> ClaudeText(body, ClaudeReply(body).value.s)
  {
    if exists t :: ClaudeText(body, t) {
      var t :| ClaudeText(body, t);
      assert ClaudeReply(body) == Success(JStr(t));
    }
    if ClaudeReply(body).Success? && ClaudeReply(body).value.JStr? {
      assert ClaudeText(body, ClaudeReply(body).value.s);
    }
  }

  /** The reply text read from a response. For Anthropic models it is
      `content[0].text`; for the others it is the first of `generation`,
      `output` and `text`, else the whole body as a string. */
  function ExtractReply(arn: string, body: Json, stringify: Json -> string): (r: Result<string, string>)
    ensures IsAnthropic(arn) ==> (r.Success? <==> exists t :: ClaudeText(body, t))
    ensures IsAnthropic(arn) && r.Success? ==> ClaudeText(body, r.value)
    ensures !IsAnthropic(arn) && !body.JObj? ==> r == Failure(MalformedReply)
    ensures !IsAnthropic(arn) && body.JObj? ==>
      r == AsText(FirstPresent(body.fields, GenericReplyKeys).GetOr(JStr(stringify(body))))
  {
    if IsAnthropic(arn) then
      ClaudeReplyShape(body);
      match ClaudeReply(body)
      case Success(reply) => AsText(reply)
      case Failure(e) => Failure(e)
    else
      match GenericReply(body, stringify)
      case Success(reply) =>
        GenericReplyIsFirstPresent(body, stringify);
        AsText(reply)
      case Failure(e) => Failure(e)
  }

  /** The error text reported for a failed call: any mention of an inference
      profile is replaced by an explanation of how to configure one. */
  function FriendlyError(error: string): (r: string)
    ensures Contains(Lower(error), ProfileMarker) ==> r == ProfileHint
    ensures !Contains(Lower(error), ProfileMarker) ==> r == error
  {
    if Contains(Lower(error), ProfileMarker) then ProfileHint else error
  }

  /** The explanation itself mentions an inference profile. */
  lemma HintMentionsProfile()
    ensures Contains(Lower(ProfileHint), ProfileMarker)
  {
    LowerConcat(HintOpening + ProfileMarker, HintClosing);
    LowerConcat(HintOpening, ProfileMarker);
    LowerKeepsLowercase(ProfileMarker);
    var low := Lower(HintOpening) + ProfileMarker + Lower(HintClosing);
    var at := |Lower(HintOpening)|;
    assert low[at..at + |ProfileMarker|] == ProfileMarker;
    OccursAtContains(low, ProfileMarker, at);
  }

  /** So rewriting is idempotent: a reported error is never rewritten into
      something else. */
  lemma FriendlyErrorIdempotent(error: string)
    ensures FriendlyError(FriendlyError(error)) == FriendlyError(error)
  {
    if Contains(Lower(error), ProfileMarker) {
      HintMentionsProfile();
    }
  }
}
