/** One chat turn: the request is checked, the user message is stored (with the
    chat's title on its first message), a model is chosen, the model is called
    with the whole history, and its reply is stored. */
module Turn {
  import opened Wrappers
  import opened Text
  import opened Json
  import opened Chat
  import Registry
  import opened Inference

  const TitleLength := 30
  const Ellipsis := "..."
  const MissingParameters := "Missing required parameters"
  const ChatNotFound := "Chat not found or unauthorized"
  const NoModel := "No model available"

  /** A JSON id that Python treats as true: present and non-zero. */
  predicate IdGiven(id: Option<int>) {
    id.Some? && id.value != 0
  }

  /** The title derived from a chat's first message: its first 30 characters,
      followed by "..." when the message is longer than that. */
  function DeriveTitle(message: string): (r: string)
    ensures |r| <= TitleLength + |Ellipsis|
    ensures |message| <= TitleLength ==> r == message
    ensures |message| > TitleLength ==>
              && |r| == TitleLength + |Ellipsis|
              && r[..TitleLength] == message[..TitleLength]
              && r[TitleLength..] == Ellipsis
  {
    var head := if |message| <= TitleLength then message else message[..TitleLength];
    head + (if |message| > TitleLength then Ellipsis else "")
  }

  /** The chat's title once a turn has stored `message`: derived from the message
      when the chat had no messages before, otherwise left as it was. */
  function TitleAfterTurn(chat: Session, message: string): (r: string)
    ensures |chat.messages| == 0 ==> r == DeriveTitle(message)
    ensures |chat.messages| > 0 ==> r == chat.title
  {
    if |chat.messages| == 0 then DeriveTitle(message) else chat.title
  }

  /** The title rule as the source evaluates it: the chat's message list is
      loaded after the new user message was added to the database session, and
      loading it flushes that message first, so the list is never empty. */
  function TitleAsWritten(chat: Session, message: string): string {
    var loaded := chat.messages + [Message(User, message)];
    if |loaded| == 0 then DeriveTitle(message) else chat.title
  }

  /** As written, the title rule never fires: whatever the chat and the message,
      the chat keeps the title it had. */
  lemma TitleAsWrittenNeverDerives(chat: Session, message: string)
    ensures TitleAsWritten(chat, message) == chat.title
  {
  }

  /** The instance that shows it: a fresh chat whose first message is "Hello"
      keeps its placeholder title, where the intended rule names it "Hello". */
  lemma TitleAsWrittenKeepsPlaceholder(owner: UserId, id: nat)
    ensures var blank := Session(id, owner, NewChatTitle, []);
            && TitleAsWritten(blank, "Hello") == "New Chat"
            && TitleAfterTurn(blank, "Hello") == "Hello"
  {
    TitleAsWrittenNeverDerives(Session(id, owner, NewChatTitle, []), "Hello");
  }

  /** The model a turn uses: the entry named by an explicit id when there is
      one, otherwise the first default entry, otherwise none. */
  function ResolveModel(reg: seq<Registry.ModelEntry>, modelId: Option<int>): (r: Option<Registry.ModelEntry>)
    ensures r.Some? ==> r.value in reg
    ensures IdGiven(modelId) && (exists i :: 0 <= i < |reg| && reg[i].id == modelId.value) ==>
              r.Some? && r.value.id == modelId.value
    ensures !(IdGiven(modelId) && exists i :: 0 <= i < |reg| && reg[i].id == modelId.value) ==>
              && (r.None? <==> forall i :: 0 <= i < |reg| ==> !reg[i].isDefault)
              && (r.Some? ==> r.value.isDefault)
  {
    var named := if IdGiven(modelId) then Registry.Find(reg, modelId.value) else None;
    match named
    case Some(k) => Some(reg[k])
    case None =>
      match Registry.FirstDefault(reg)
      case Some(k) => Some(reg[k])
      case None => None
  }

  datatype Response = Reply(text: string, chatId: int) | Error(status: nat, message: string)

  /** The state after a turn, the response, the body sent to the model (if any)
      and the model ids requests were sent to. */
  datatype TurnResult = TurnResult(sessions: seq<Session>, response: Response, sent: Option<RequestBody>, attempts: seq<string>)

  /** The request names a chat and a message, and the caller owns that chat. */
  ghost predicate Admitted(ss: seq<Session>, caller: UserId, chatId: Option<int>, message: Option<string>) {
    && IdGiven(chatId)
    && Truthy(message)
    && exists i :: 0 <= i < |ss| && ss[i].id == chatId.value && ss[i].owner == caller
  }

  /** A chat after a turn that stored `message` and, when there is one, `reply`. */
  function AfterTurn(chat: Session, message: string, reply: Option<string>): Session {
    var stored := chat.messages + [Message(User, message)];
    chat.(title := TitleAfterTurn(chat, message),
          messages := if reply.Some? then stored + [Message(Assistant, reply.value)] else stored)
  }

  function ReplyOf(response: Response): Option<string> {
    if response.Reply? then Some(response.text) else None
  }

  /** One chat turn, with the remote call `invoke` and Python's `str` of a parsed
      body `stringify` as parameters. The title follows the corrected first-message
      rule `TitleAfterTurn`, not the rule as written (`TitleAsWritten`), under
      which the title never changes. */
  function ProcessMessage(ss: seq<Session>, reg: seq<Registry.ModelEntry>, caller: UserId,
                          chatId: Option<int>, message: Option<string>, modelId: Option<int>,
                          invoke: Invoker, stringify: Json -> string): (r: TurnResult)
    requires UniqueIds(ss)
    // the gate: a rejected request changes nothing and calls nothing
    ensures r.response == Error(400, MissingParameters) <==> !IdGiven(chatId) || !Truthy(message)
    ensures r.response == Error(404, ChatNotFound) <==>
              IdGiven(chatId) && Truthy(message) && !Admitted(ss, caller, chatId, message)
    ensures !Admitted(ss, caller, chatId, message) ==> r.sessions == ss && r.sent.None? && r.attempts == []
    // an admitted turn touches the named chat only: the user message is always
    // stored, the reply only on success
    ensures Admitted(ss, caller, chatId, message) ==>
              && |r.sessions| == |ss|
              && forall i :: 0 <= i < |ss| ==>
                   r.sessions[i] == if ss[i].id == chatId.value then AfterTurn(ss[i], message.value, ReplyOf(r.response)) else ss[i]
    ensures r.response.Reply? ==> r.response.chatId == chatId.value
    // no model: the stored user message stays, nothing is sent
    ensures Admitted(ss, caller, chatId, message) && ResolveModel(reg, modelId).None? ==>
              r.response == Error(500, NoModel) && r.sent.None? && r.attempts == []
    // the model sees the whole history, new message last
    ensures r.sent.Some? ==>
              && Admitted(ss, caller, chatId, message)
              && ResolveModel(reg, modelId).Some?
              && exists i :: 0 <= i < |ss| && ss[i].id == chatId.value &&
                   r.sent.value == ShapeRequest(ResolveModel(reg, modelId).value.arn, ss[i].messages + [Message(User, message.value)])
    // with a model: the turn sends the shaped history through the retrying call,
    // stores the extracted reply, and reports any failure in its friendly form
    ensures Admitted(ss, caller, chatId, message) && ResolveModel(reg, modelId).Some? ==>
              var arn := ResolveModel(reg, modelId).value.arn;
              var chat := ss[Find(ss, chatId.value).value];
              var body := ShapeRequest(arn, chat.messages + [Message(User, message.value)]);
              var call := InvokeWithProfileRetry(invoke, arn, body);
              && r.sent == Some(body)
              && r.attempts == call.attempts
              && (call.outcome.Failure? ==> r.response == Error(500, FriendlyError(call.outcome.error)))
              && (call.outcome.Success? ==>
                    var reply := ExtractReply(arn, call.outcome.value, stringify);
                    && (reply.Success? ==> r.response == Reply(reply.value, chatId.value))
                    && (reply.Failure? ==> r.response == Error(500, FriendlyError(reply.error))))
    ensures |r.attempts| <= 2
  {
    if !IdGiven(chatId) || !Truthy(message) then TurnResult(ss, Error(400, MissingParameters), None, [])
    else match Find(ss, chatId.value)
      case None => TurnResult(ss, Error(404, ChatNotFound), None, [])
      case Some(k) =>
        if ss[k].owner != caller then TurnResult(ss, Error(404, ChatNotFound), None, [])
        else
          var chat := ss[k];
          var text := message.value;
          var stored := AfterTurn(chat, text, None);
          var committed := ss[k := stored];
          match ResolveModel(reg, modelId)
          case None => TurnResult(committed, Error(500, NoModel), None, [])
          case Some(model) =>
            var history := stored.messages;
            var body := ShapeRequest(model.arn, history);
            var call := InvokeWithProfileRetry(invoke, model.arn, body);
            var reply := match call.outcome
              case Success(response) => ExtractReply(model.arn, response, stringify)
              case Failure(e) => Failure(e);
            match reply
            case Success(answer) =>
              TurnResult(ss[k := AfterTurn(chat, text, Some(answer))], Reply(answer, chatId.value), Some(body), call.attempts)
            case Failure(e) =>
              TurnResult(committed, Error(500, FriendlyError(e)), Some(body), call.attempts)
  }

  /** A turn never adds, removes or re-owns a chat, so the table keeps its primary key. */
  lemma ProcessMessageKeepsChats(ss: seq<Session>, reg: seq<Registry.ModelEntry>, caller: UserId,
                                 chatId: Option<int>, message: Option<string>, modelId: Option<int>,
                                 invoke: Invoker, stringify: Json -> string)
    requires UniqueIds(ss)
    ensures var r := ProcessMessage(ss, reg, caller, chatId, message, modelId, invoke, stringify);
            && |r.sessions| == |ss|
            && (forall i :: 0 <= i < |ss| ==> r.sessions[i].id == ss[i].id && r.sessions[i].owner == ss[i].owner)
            && UniqueIds(r.sessions)
  {
    var r := ProcessMessage(ss, reg, caller, chatId, message, modelId, invoke, stringify);
    assert forall i :: 0 <= i < |ss| ==> r.sessions[i].id == ss[i].id;
  }
}
