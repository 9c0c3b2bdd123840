/** Concrete turns: the first message of a fresh chat, a turn on a missing chat,
    a turn with no usable model, and the inference-profile retry. */
module Scenarios {
  import opened Wrappers
  import opened Text
  import opened Json
  import opened Chat
  import Registry
  import opened Inference
  import opened Turn

  const TestArn := "anthropic.claude-3-5-sonnet-20240620-v1:0"
  const OpusArn := "anthropic.claude-opus-4-20250514-v1:0"
  const ErrorOpening := "ValidationException: Retry your request with the ID or ARN of an "
  const ProfileError := ErrorOpening + "Inference Profile" + " that contains this model."

  /** A model endpoint that always answers with `text` in the Anthropic shape. */
  function AnswerWith(text: string): Invoker {
    (id: string, body: RequestBody) => Success(JObj(map["content" := JArr([JObj(map["text" := JStr(text)])])]))
  }

  /** An endpoint that rejects every direct Opus 4 id and serves derived profile ids. */
  function ProfileOnly(text: string): Invoker {
    (id: string, body: RequestBody) =>
      if id == OpusArn then Failure(ProfileError)
      else Success(JObj(map["content" := JArr([JObj(map["text" := JStr(text)])])]))
  }

  function Show(j: Json): string {
    "<body>"
  }

  lemma TestArnIsAnthropic()
    ensures IsAnthropic(TestArn)
  {
    var low := Lower(TestArn);
    assert TestArn[..|AnthropicMarker|] == AnthropicMarker;
    LowerSlice(TestArn, 0, |AnthropicMarker|);
    LowerKeepsLowercase(AnthropicMarker);
    assert IsPrefix(AnthropicMarker, low);
  }

  /** First message "Hello" on a fresh chat with the default model: the chat is
      titled "Hello" and holds the user message followed by the reply. */
  lemma HelloOnFreshChat()
    ensures var ss := [Session(1, 7, NewChatTitle, [])];
            var reg := [Registry.ModelEntry(1, "Test Model", TestArn, true)];
            var r := ProcessMessage(ss, reg, 7, Some(1), Some("Hello"), None, AnswerWith("Hi there"), Show);
            && r.response == Reply("Hi there", 1)
            && r.sessions == [Session(1, 7, "Hello", [Message(User, "Hello"), Message(Assistant, "Hi there")])]
  {
    var ss := [Session(1, 7, NewChatTitle, [])];
    var reg := [Registry.ModelEntry(1, "Test Model", TestArn, true)];
    TestArnIsAnthropic();
    assert Find(ss, 1) == Some(0);
    assert ResolveModel(reg, None) == Some(reg[0]);
    assert DeriveTitle("Hello") == "Hello";
    var history := [Message(User, "Hello")];
    assert AfterTurn(ss[0], "Hello", None).messages == history;
    var sent := ShapeRequest(TestArn, history);
    assert sent == Structured(AnthropicVersion, MaxTokens, history);
    var body := JObj(map["content" := JArr([JObj(map["text" := JStr("Hi there")])])]);
    assert InvokeWithProfileRetry(AnswerWith("Hi there"), TestArn, sent).outcome == Success(body);
    assert ClaudeText(body, "Hi there");
    assert ExtractReply(TestArn, body, Show) == Success("Hi there");
    var done := AfterTurn(ss[0], "Hello", Some("Hi there"));
    assert done == Session(1, 7, "Hello", [Message(User, "Hello"), Message(Assistant, "Hi there")]);
    var r := ProcessMessage(ss, reg, 7, Some(1), Some("Hello"), None, AnswerWith("Hi there"), Show);
    assert r.sessions == ss[0 := done] && r.response == Reply("Hi there", 1);
    assert ss[0 := done] == [done];
  }

  /** A turn on a chat id that does not exist is refused and stores nothing. */
  lemma MissingChatStoresNothing(ss: seq<Session>, reg: seq<Registry.ModelEntry>, caller: UserId, invoke: Invoker)
    requires UniqueIds(ss)
    requires forall i :: 0 <= i < |ss| ==> ss[i].id != 99
    ensures var r := ProcessMessage(ss, reg, caller, Some(99), Some("Hello"), None, invoke, Show);
            r.response == Error(404, ChatNotFound) && r.sessions == ss
  {
  }

  /** With an empty registry the turn fails, yet the user message stays stored
      and the title is still derived. */
  lemma NoModelKeepsUserMessage()
    ensures var ss := [Session(3, 7, NewChatTitle, [])];
            var r := ProcessMessage(ss, [], 7, Some(3), Some("Hello"), Some(5), AnswerWith("unused"), Show);
            && r.response == Error(500, NoModel)
            && r.sessions == [Session(3, 7, "Hello", [Message(User, "Hello")])]
  {
    var ss := [Session(3, 7, NewChatTitle, [])];
    assert Find(ss, 3) == Some(0);
    assert ResolveModel([], Some(5)) == None;
    assert DeriveTitle("Hello") == "Hello";
    var stored := AfterTurn(ss[0], "Hello", None);
    assert stored == Session(3, 7, "Hello", [Message(User, "Hello")]);
    var r := ProcessMessage(ss, [], 7, Some(3), Some("Hello"), Some(5), AnswerWith("unused"), Show);
    assert r == TurnResult(ss[0 := stored], Error(500, NoModel), None, []);
    assert ss[0 := stored] == [stored];
  }

  /** An Opus 4 model id that the endpoint refuses is retried once, under the
      id built from the text after its last colon, here "inference-profile-0". */
  lemma OpusRetriedUnderProfileId()
    ensures var body := Structured(AnthropicVersion, MaxTokens, [Message(User, "Hello")]);
            var call := InvokeWithProfileRetry(ProfileOnly("Hi"), OpusArn, body);
            && call.attempts == [OpusArn, "inference-profile-0"]
            && call.outcome.Success?
  {
    var low := Lower(OpusArn);
    assert OpusArn[..|OpusMarker|] == OpusMarker;
    LowerSlice(OpusArn, 0, |OpusMarker|);
    LowerKeepsLowercase(OpusMarker);
    assert IsPrefix(OpusMarker, low);
    LowerConcat(ErrorOpening + "Inference Profile", " that contains this model.");
    LowerConcat(ErrorOpening, "Inference Profile");
    assert Lower("Inference Profile") == ProfileMarker;
    var e := Lower(ErrorOpening) + ProfileMarker + Lower(" that contains this model.");
    var at := |Lower(ErrorOpening)|;
    assert e[at..at + |ProfileMarker|] == ProfileMarker;
    OccursAtContains(e, ProfileMarker, at);
    assert LastSegment(OpusArn, ':') == "0";
    assert ProfileId(OpusArn) == "inference-profile-0";
    assert OpusArn != "inference-profile-0";
  }
}
