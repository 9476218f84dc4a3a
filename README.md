# llmapi: cleaning model replies and the `/chat` context store

`llmapi.py` is a small Flask service in front of a local Ollama server. It
takes a chat message, forwards it to the `deepseek-r1:1.5b` model and answers
with the model's reply. The reply is passed through `clean_response` first,
which removes the model's `<think>…</think>` reasoning. The service keeps
Ollama's conversation `context` per user in an in-memory dictionary,
`user_contexts`. It sends the stored context with the user's next message and
replaces it with the one Ollama returns.

The model has four modules:

- `Wrappers`: `Option` and `Result`.
- `Text`: Python's `str.strip()` with no argument, which removes the
  characters for which `str.isspace()` holds, Unicode spaces included. Also
  fixed-substring search and the "only deletes characters" relation (being a
  subsequence).
- `Think`: `clean_response`. Each of its two `re.sub` calls is written as the
  left-to-right scan the regular-expression engine performs:
  - `RemoveSpans` is the lazy, DOTALL span from `<think>` to the first
    `</think>`. A `<think>` with no closing tag after it is kept.
  - `RemoveTags` deletes the leftover tags; it does not rescan its own output.
  - `strip()` runs last.
- `Chat`: the `/chat` handler.
  - `Normalize` applies the request's defaults: `user_id` is `"default"`, the
    message is stripped, `use_context` is the global `True`.
  - `Respond` is the decision over the store.
  - `Handle` composes the two.
  - `ChatService` holds `user_contexts` as a `map` field. Its method `Chat`
    updates the map in place the way the source does, and is proved equal to
    `Handle` on the old store.

  The HTTP call to Ollama is a parameter of type `Upstream`: a timeout, another
  exception's message, or a reply with its status, text and decoded JSON. The
  handler returns the request it sends (`None` when it makes no call) so that
  its contents can be stated.

## Model

| member | source | states |
|---|---|---|
| Think.CleanResponse | llmapi.py:19-23 | the cleaned reply is never longer than the input and has no whitespace at either end |
| Think.CleanResponseSubseq | llmapi.py:19-23 | cleaning only deletes characters: the result is a subsequence of the input |
| Think.CleanResponseNoTags | llmapi.py:21-23 | a reply containing neither `<think>` nor `</think>` is only stripped |
| Think.CleanResponseDropsThinkBlock | llmapi.py:21-23 | a `<think>` block in tag-free text is dropped whole, up to the first `</think>`, whatever it holds (newlines, other `<think>`s), and the rest is stripped |
| Think.TagCanSurvive | llmapi.py:22 | the second pass does not rescan its output, so `<thi<think>nk>` cleans to `<think>` |
| Think.RemoveSpans | llmapi.py:21 | the first pass never lengthens its input |
| Think.RemoveSpansSubseq | llmapi.py:21 | the first pass only deletes characters |
| Think.RemoveSpansNoOpen | llmapi.py:21 | text without `<think>` passes the first pass unchanged |
| Think.RemoveSpansNoClose | llmapi.py:21 | text without `</think>` passes the first pass unchanged: an unclosed `<think>` is kept |
| Think.SpanEnd | llmapi.py:21 | the lazy span opened at the start ends at the first `</think>` after it |
| Think.SpanRemoved | llmapi.py:21 | after text without `<think>`, a span up to the first `</think>` is deleted whole and the scan resumes after it |
| Think.KeepsPrefix | llmapi.py:21 | text without `<think>` before a `<` is copied through by the first pass |
| Think.RemoveTags | llmapi.py:22 | the second pass never lengthens its input |
| Think.RemoveTagsSubseq | llmapi.py:22 | the second pass only deletes characters |
| Think.RemoveTagsNoTags | llmapi.py:22 | text without either tag passes the second pass unchanged |
| Think.TagRemoved | llmapi.py:22 | after tag-free text, a `<think>` or `</think>` is deleted and the scan resumes after it |
| Think.KeepsTagFreePrefix | llmapi.py:22 | tag-free text before a `<` is copied through by the second pass |
| Text.Strip | llmapi.py:23 | `strip()` never lengthens its input and leaves no whitespace at either end |
| Text.StripShape | llmapi.py:23 | `strip()` returns a slice `s[i..j]`; everything before `i` and from `j` on is whitespace |
| Text.StripEmptyIff | llmapi.py:30 | the stripped message is empty exactly when it was all whitespace |
| Text.StripOfStripped | llmapi.py:23 | `strip()` leaves text without surrounding whitespace unchanged |
| Text.StripIdempotent | llmapi.py:23 | stripping twice is stripping once |
| Text.StripSubseq | llmapi.py:23 | `strip()` only deletes characters |
| Text.IsSpaceExactly | llmapi.py:23 | `IsSpace`, the set `strip()` removes, holds for exactly the 29 characters of Python's `str.isspace()`, listed one by one |
| Text.SkipSpaces | llmapi.py:23 | the scan from `i` stops at the first non-whitespace character, everything it passes being whitespace |
| Text.SkipSpacesBack | llmapi.py:23 | the scan back from `j` stops just past the last non-whitespace character, everything it passes being whitespace |
| Text.TrimStart | llmapi.py:23 | leading whitespace is removed: the result is a suffix, what was dropped is whitespace, and the result does not start with whitespace |
| Text.TrimEnd | llmapi.py:23 | trailing whitespace is removed: the result is a prefix, what was dropped is whitespace, and the result does not end with whitespace |
| Text.Find | llmapi.py:21 | the search for `</think>` returns the first occurrence at or after the start index, or none when there is none |
| Chat.Normalize | llmapi.py:29-31 | an absent `user_id` is the key `"default"`, an absent `use_context` means context is used, and the message has no surrounding whitespace and is no longer than the one given (`NormalizeDefaults` states the rest) |
| Chat.ContextFor | llmapi.py:37 | the context chosen is the stored one when context is used and one is stored, and `[]` otherwise |
| Chat.RequestFor | llmapi.py:40-49 | the request goes to `http://localhost:11434/api/chat` with model `deepseek-r1:1.5b`, the message as the one `"user"` message, no streaming, a 60 s timeout and the chosen context |
| Chat.Respond | llmapi.py:33-79 | every response is 200, 400 or 500; Ollama is called exactly when the message is not empty; only a 200 changes the store, adding at most the user's key (the lemmas `EmptyMessageRejected` to `OnlyOwnEntryChanges` state each branch) |
| Chat.Handle | llmapi.py:26-79 | only a 200 changes the store, and the only key it can add is the request's `user_id`, or `"default"` when it names none |
| Chat.ChatService.constructor | llmapi.py:17 | the context store starts empty |
| Chat.ChatService.Chat | llmapi.py:26-79 | the response, the request sent and the new store are those of `Handle` on the old store; a non-200 response leaves the store unchanged; every key other than the user's keeps its presence and its context |
| Chat.NormalizeDefaults | llmapi.py:29-31 | a missing `user_id` is the key `"default"` and a given one is the key itself; a missing `use_context` means context is used and a given one is used as it is; the message is empty after stripping exactly when it is absent or all whitespace |
| Chat.EmptyMessageRejected | llmapi.py:33-34 | status 400 exactly when the stripped message is empty; then the body is "Message is required", no call is made and the store is unchanged |
| Chat.BlankMessageRejected | llmapi.py:30-34 | for a raw request: 400, no call and an unchanged store exactly when the message is absent or whitespace-only |
| Chat.MessageForwarded | llmapi.py:37-49 | any non-empty message is sent once, whatever Ollama answers, to `http://localhost:11434/api/chat` with model `deepseek-r1:1.5b`: the stripped message as the one `"user"` message, streaming off, a 60 s timeout, the chosen context |
| Chat.ContextSent | llmapi.py:37 | the context sent is `[]` with context off, the stored one with context on, and `[]` when nothing is stored |
| Chat.NoContextNoChange | llmapi.py:67-73 | with context off the store never changes and any answer carries context `[]` |
| Chat.UpstreamFailureKeepsStore | llmapi.py:51-79 | every failed call gives 500 and leaves the store unchanged: a timeout asks to try again later; a non-200 status is echoed with the reply's text; a raised error or an undecodable body gives its message |
| Chat.ReplyAnswer | llmapi.py:60-74 | a 200 reply answers 200 with the cleaned reply text (`""` if absent), and with Ollama's context (`[]` if absent) only when context is used |
| Chat.ReplyStoresContext | llmapi.py:61-68 | a 200 reply with context on replaces the user's entry by Ollama's context, adding the key if it is new |
| Chat.OnlyOwnEntryChanges | llmapi.py:67-68 | no key is ever removed, and every other user's entry keeps its presence and context |
| Chat.ContextCarriesOver | llmapi.py:37-68 | two context-using requests from the same user: the second sends the context the first's answer carried |

## Left out

- Flask plumbing is not modelled: app setup, CORS, routing, `request.json`, `jsonify` and `app.run` (llmapi.py:3-7, 25, 28, 81-82). A request is a value with three optional fields, and a response is a status and a body.
- The JSON shape of the answer is not modelled: the body `Answer(content, context)` stands for the JSON `{"choices": [{"message": {"content": …}}], "context": …}`.
- `requests.post` is not modelled: the network, connecting and the 60-second wait are outside the model. The model records the request the handler would send, and the `Upstream` parameter says how the call ended.
- Decoding Ollama's reply body (llmapi.py:59) is given, as a `Result`: the fields found, or the message of the error raised.
- JSON values of the wrong type are not modelled: a request body that is not a JSON object, `null` or non-string `message`/`user_id`, a non-boolean `use_context` (Python truthiness), a non-string `response` in Ollama's reply, and a reply whose `"context"` is `null`. In the source these raise and reach the generic 500 path, or they travel through unchanged; the model types the fields instead.
- The case of a reply with `"context": null` is not modelled: Python then stores and returns `None` (llmapi.py:61, 68, 73), while in the model `ReplyJson.context == None` means only that the key is absent, which gives `[]`.
- `str(e)` of a raised exception is not modelled: the model takes the exception text as the string carried by `Raised`.
- Context entries are modelled as `int`s; Python's list of arbitrary JSON values is not.
- Chat.ChatService.Chat: runs as one atomic step. Flask's development server (llmapi.py:82) handles requests on threads, and `chat()` reads the store (llmapi.py:37) and writes it (llmapi.py:68) with the blocking call to Ollama in between. Two overlapping requests from one user therefore both send the old context, and the one that finishes last decides what is stored. The model does not capture this interleaving.
- Chat.ContextCarriesOver: holds only for requests that do not overlap in time, for the reason on the line above.
