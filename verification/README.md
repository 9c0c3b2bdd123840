# Bedrock chat front-end: turn pipeline and model registry

This project models the decision logic of a Flask chat front-end for AWS Bedrock (`app.py`). It covers two parts, written as pure Dafny functions over immutable tables.

1. **The chat turn (`process_message`)**, in this order:
   - the request is checked for a chat id and a message;
   - the chat must exist and belong to the caller;
   - the user message is stored, and on a chat's first message the chat gets a title from that message (the corrected rule; see "## Findings");
   - a model is chosen: an explicit id first, then the default, else an error;
   - the request body is shaped for the model's ARN (a structured message list for Anthropic models, a `"role: content"` transcript otherwise);
   - the model is called, with at most one inference-profile retry;
   - the reply text is read from the response and stored;
   - a failure is reported, with errors about inference profiles rewritten into an explanation.

   The remote call is a parameter of type `Inference.Invoker`. It maps a model id and a request body to the parsed response or to the error text it raised.
2. **The model registry** (`add_model`, `set_default_model`, `delete_model`) as a state machine over a sequence of entries. Its invariant is unique ids and at most one default. Alongside it is owner-only session administration: create, rename, and delete with cascade.

Tables are sequences. Append order stands for row-id and timestamp order, and new ids are the largest id in use plus one.

Modules:

| file | module | content |
|---|---|---|
| wrappers.dfy | Wrappers | `Option`, `Result` |
| text.dfy | Text | ASCII lower-casing, substring test, `split(sep)[-1]`, `sep.join` |
| table.dfy | Table | primary-key look-up over a row's id and the next free id |
| json.dfy | Json | parsed response values, `dict.get`, first present key |
| chat.dfy | Chat | sessions, messages, create / rename / delete |
| registry.dfy | Registry | model entries, add / set default / delete |
| inference.dfy | Inference | body shaping, profile retry, reply extraction, error rewrite |
| turn.dfy | Turn | title rule, model resolution, the whole turn |
| scenarios.dfy | Scenarios | concrete turns |

## Model

| member | source | states |
|---|---|---|
| Turn.ProcessMessage | app.py:187-326 | A request without a chat id or message gets 400 and changes nothing. A chat that is missing or owned by someone else gets 404 and changes nothing. Otherwise only the named chat changes: the user message is always stored, the title follows the first-message rule, and the assistant reply is appended only on success. With no usable model the result is 500 "No model available" and the user message stays. With a model, the body shaped from the whole history, new message last, is sent through the profile-retrying call, and the turn's model ids are that call's. When the call succeeds and a reply can be read from its response, the reply is returned and stored. Otherwise the result is 500 with the friendly form of the call's or the extraction's error. |
| Turn.ProcessMessageKeepsChats | app.py:187-326 | A turn never adds, removes or re-owns a chat, so chat ids stay unique. |
| Turn.DeriveTitle | app.py:211-213 | The title is at most 33 characters. It equals the message when the message has at most 30 characters; otherwise it is the first 30 characters followed by "...". |
| Turn.TitleAfterTurn | app.py:210-213 | The derived title is set exactly when the chat had no messages before the turn. Otherwise the title is kept. |
| Turn.TitleAsWrittenNeverDerives | app.py:203-213 | With the list read after the pending message is flushed, the title check never fires: every chat keeps its title, whatever the message. |
| Turn.TitleAsWrittenKeepsPlaceholder | app.py:203-213 | The instance: a fresh chat's first message "Hello" leaves the title "New Chat" as written, where the intended rule gives "Hello". |
| Turn.ResolveModel | app.py:217-225 | An explicit id that names an entry wins. Otherwise a default entry is used; there is none exactly when no entry is flagged default. The result is always an entry of the registry. |
| Inference.ShapeRequest | app.py:241-257 | The body is a structured message list exactly when the lower-cased ARN contains "anthropic". That list is the history in order. Every other model gets the transcript. Both ask for 4096 tokens. |
| Inference.TranscriptLength | app.py:255 | The transcript of n messages is their n lines plus exactly n-1 two-newline separators. |
| Inference.TranscriptCons | app.py:255 | The transcript opens with the first message's `"role: content"` line; every later line follows one separator. |
| Inference.TranscriptOfHello | app.py:255 | A single user message "Hello" becomes the prompt "user: Hello". |
| Inference.ProfileId | app.py:282 | The retry id is "inference-profile-" followed by a colon-free suffix of the ARN that starts right after its last colon, or is the whole ARN when it has no colon. |
| Inference.InvokeWithProfileRetry | app.py:262-295 | The first call goes to the ARN. A second call happens exactly when the first fails with text mentioning "inference profile" (any case) and the ARN contains "anthropic.claude-opus-4". The second call goes to the profile id. There is never a third. The outcome is that of the last call, so every other error passes through unchanged. |
| Inference.RetryOnlyForAnthropic | app.py:242-295 | A retried request is always the structured Anthropic body. |
| Inference.ClaudeReplyShape | app.py:298-299 | `content[0].get('text')` yields text exactly when the response is an object whose `content` is a non-empty list whose first element has a string `text`. |
| Inference.GenericReplyIsFirstPresent | app.py:302 | The nested `get` calls pick the first of `generation`, `output` and `text` that is present, else the stringified body. |
| Inference.ExtractReply | app.py:297-302 | For Anthropic ARNs a reply exists exactly when `content[0].text` is a string, and it is that string. For other ARNs it is the first present field among `generation`, `output` and `text`, else the stringified body. A response that is not an object fails. |
| Inference.FriendlyError | app.py:318-326 | An error mentioning "inference profile" (any case) is replaced by the fixed explanation. Every other error text is reported verbatim. |
| Inference.HintMentionsProfile | app.py:324 | The explanation itself mentions an inference profile. |
| Inference.FriendlyErrorIdempotent | app.py:322-324 | Rewriting a reported error again changes nothing. |
| Registry.AddModel | app.py:336-358 | A missing or empty name or ARN leaves the registry unchanged. Otherwise one entry with a fresh id is appended. A checked box (`"on"`) makes it the only default; an unchecked box leaves the other entries' flags alone. The warning is raised exactly for "claude-opus-4" ARNs without "inference-profile". |
| Registry.AddModelPreservesValid | app.py:349-355 | Adding keeps ids unique and at most one default. A new default leaves exactly one default. A new non-default keeps the number of defaults. |
| Registry.SetDefault | app.py:387-401 | An unknown id changes nothing. Otherwise the entry with that id is flagged default and all others are unflagged; nothing else changes. |
| Registry.SetDefaultExactlyOne | app.py:388-398 | After setting a default, exactly one entry, the target, is default, and the registry stays valid. |
| Registry.FirstDefault | app.py:222 | The lookup returns the first default entry, and none exactly when no entry is default. |
| Registry.DeleteModel | app.py:362-383 | An unknown id, or a registry of at most one entry, changes nothing (not-found is checked first). Otherwise the entry goes, the others keep their order and fields, and if the deleted entry was the default, the first remaining entry becomes default. |
| Registry.DeleteModelPreservesDefaults | app.py:373-380 | Deleting keeps the registry valid and keeps the number of defaults. |
| Chat.NewChat | app.py:146-152 | A new chat is appended with a fresh id, owned by the caller, titled "New Chat" and empty; chat ids stay unique. |
| Chat.RenameChat | app.py:169-185 | A missing chat gives NotFound and another user's chat gives Unauthorized; both change nothing. The owner's rename with a non-empty title changes only that chat's title. An absent or empty title changes nothing. |
| Chat.DeleteChat | app.py:154-167 | NotFound and Unauthorized as for rename. The owner's delete removes exactly that chat and keeps the others in order. |
| Chat.DeleteChatCascades | app.py:43 | After a delete no chat, and hence no message, with that id remains. Every other chat survives and ids stay unique. |
| Chat.OnlyOwnerMutates | app.py:154-185 | A caller who does not own a chat can neither rename nor delete it, and the table is unchanged. |
| Scenarios.HelloOnFreshChat | app.py:187-316 | On a fresh chat with the default "Test Model", "Hello" yields the model's reply. The chat holds the user message, then the assistant message, and is titled "Hello" by the corrected title rule. |
| Scenarios.MissingChatStoresNothing | app.py:198-200 | A turn on a chat id that does not exist gets 404 and stores nothing. |
| Scenarios.NoModelKeepsUserMessage | app.py:202-225 | With an empty registry the turn fails with "No model available", yet the user message is kept, and so is the title the corrected rule derives. |
| Scenarios.OpusRetriedUnderProfileId | app.py:270-289 | A refused Opus 4 id `...-v1:0` is retried once as "inference-profile-0", and that call's outcome is returned. |

## Left out

- Login, logout, the user loader and password hashing (app.py:27-36, 58-60, 93-121): session state and foreign cryptography.
- The chat page and model list pages (app.py:123-144, 328-332): they only render. The newest-first ordering of the chat list is not modelled.
- Startup seeding (app.py:63-81): bootstrap I/O. It can add a second default without clearing the first, so it is not part of the registry state machine.
- The boto3 client, JSON encoding of the request and JSON decoding of the response (app.py:84-90, 265-269, 285-289). These are the `Invoker` parameter: a failed decode counts as a failed call, as in the source, where decoding sits inside the retried block. A failure to build the client is not modelled.
- Python's `str()` of a parsed response (app.py:302): it is the `stringify` parameter, because Python's dictionary printing is not modelled.
- Logging, flash messages, redirects, templates. Rename and delete report `NotFound` / `Unauthorized` / `Done` instead of a redirect or a 403. The add-model warning is the `warned` flag.
- Transactions and rollback. `set_default_model` clears the defaults before it looks the id up; on a missing id that change is never committed, so the model states "no change".
- Concurrency: two turns on one chat may interleave their messages in the source. The model runs one request at a time.
- Lower-casing is ASCII only. Python lower-cases all of Unicode, but no non-ASCII character lower-cases into a match for the markers used ("anthropic", "anthropic.claude-opus-4", "inference profile", "claude-opus-4", "inference-profile"). So every substring test answers the same.
- Request ids are integers. A JSON string id, which the database layer would coerce, is not modelled. Column length limits are not enforced by the database and are not modelled.
- Inference.ExtractReply: when a runtime error is raised reading `content[0]`, the model reports the constant `MalformedReply`; the source reports Python's own exception text, and no such text mentions an inference profile. A reply value that is not a string is reported as the failure `NonTextReply`. This matches the source for `null` (the content column is NOT NULL) and for lists and objects, which the database driver cannot store. It is stricter than the source for numbers and booleans, which the database would store as text.
- init_db.py is interactive bootstrap. test_app.py only exercises login pages and redirects. static/js/chat.js is browser DOM code. None of them is part of this model.
- Turn.ProcessMessage: the turn uses the corrected title rule `Turn.TitleAfterTurn`. As written (app.py:211) the title is never derived, so on a chat's first message the source keeps "New Chat" where the model stores the derived title; see "## Findings".
- Scenarios.HelloOnFreshChat: the "Hello" title it states comes from the corrected title rule; the source as written keeps "New Chat".
- Scenarios.NoModelKeepsUserMessage: the derived title it states comes from the corrected title rule; the source as written keeps "New Chat".

Two facts about the code that the model keeps:
- When the profile retry itself fails, the retry's error is reported, not the original one.
- The registry keeps at most one default model, not exactly one. Adding a non-default model to an empty registry leaves no default.

## Findings

| source | as written | input that shows it | evidently intended | confidence | as-written member | corrected member |
|---|---|---|---|---|---|---|
| app.py:203-213 | `len(chat.messages) == 0` is read after `db.session.add(user_message)`. Loading the lazy relationship flushes the pending message first, so the list is never empty and the title is never derived. | A chat just created as "New Chat", first message "Hello": the title stays "New Chat". | The title becomes "Hello" on a chat's first message. | medium, not executed; it depends on the ORM flushing pending rows before a lazy relationship load (its default autoflush) | Turn.TitleAsWrittenNeverDerives | Turn.TitleAfterTurn |

`Turn.TitleAsWritten` models the check as written, `Turn.TitleAsWrittenKeepsPlaceholder` is the concrete input. `Turn.TitleAfterTurn` is the corrected rule, and the whole turn uses it.
