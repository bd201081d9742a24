# Chat handler of the Gemini study assistant, in Dafny

This project models the `/chat` endpoint of a small FastAPI service that
forwards a role-tagged conversation to Google's Gemini API. The model covers
the handler's translation work, from the request to the provider call and from
the provider's answer to the reply:

- **Model name.** The request's `model` is used when it is non-empty (Python
  `or`). Otherwise the default is used. The default is the `GEMINI_MODEL`
  environment variable if set, else `"gemini-2.5-flash"`.
- **System instruction.** The contents of all `"system"` messages, in input
  order, joined with `"\n"`. It is absent (`None`) when there is no system
  message.
- **Turns.** One turn per non-system message, in input order. The content is
  unchanged. `"user"` maps to `"user"`, `"assistant"` maps to `"model"`, and any
  other role maps to `"user"`. The handler's `for` loop with `continue` and
  `append` is the method `BuildContents`. It is proved equal to the pure
  specification `TurnsOf`.
- **Config.** A config carrying the instruction is sent only when the joined
  instruction is a non-empty string.
- **Reply.** The provider's text, or `""` when the text is missing or empty.
  An error raised by the provider becomes an HTTP 500 whose detail is the
  error's text.

The request and response shapes of app/main.py:21-32 are datatypes in
`chat.dfy`. `Message` holds a free-text `role` and a `content`. `ChatRequest`
holds the ordered `messages` and an optional `model`. `ChatResponse` holds the
`reply`. On the provider side, `Turn` is one role-tagged text. `GenerateConfig`
carries the system instruction. `ProviderCall` bundles model, turns and
optional config. `ProviderOutcome` is what the provider does: return an
optional text, or raise an error. `ChatOutcome` is the handler's answer: a
reply or a 500 with detail.

Files:

- `wrappers.dfy`: `Option`, standing for Python's `Optional`.
- `text.dfy`: Python's `sep.join(parts)` and `s.split("\n")`. The split is the
  partner of the join: it recovers newline-free parts. The split is defined by
  indices into the string: where the current piece starts and which pieces a
  newline has closed.
- `chat.dfy`: the request and response shapes, the handler, and the lemmas.

The Gemini client is a function parameter of `HandleChat`. It has type
`ProviderCall -> ProviderOutcome`: it either returns a response whose text may
be missing, or raises an error. The `GEMINI_MODEL` environment value is a
parameter of `HandleChat` too (`None` when unset). The handler turns it into
the default model with `DefaultModel`.

A request made only of system messages can still give an empty instruction. One
empty system message joins to `""`, so no config is sent (`EmptySystemExamples`).

## Model

| member | source | states |
|---|---|---|
| `Chat.DefaultModel` | app/main.py:11 | the `GEMINI_MODEL` environment value when it is set, even if empty; otherwise `"gemini-2.5-flash"` |
| `Chat.SelectModel` | app/main.py:75 | the request's model when it is present and non-empty; otherwise the default, so an empty override also falls back |
| `Chat.SystemContents` | app/main.py:78 | the list comprehension of system contents has at most one entry per message; `SystemContentsInOrder` pins down each entry |
| `Text.Join` | app/main.py:79 | `"\n".join`: no parts give `""`, one part gives that part, and two or more give at least the first part, the separator and the last part in length |
| `Chat.SystemInstruction` | app/main.py:78-79 | absent exactly when no message has role `"system"`; otherwise the system contents joined with `"\n"` |
| `Chat.NoSystemContentsIff` | app/main.py:78-79 | the list of system contents is empty if and only if no message has role `"system"` |
| `Chat.SystemContentsInOrder` | app/main.py:78 | the k-th system content is the content of the k-th system message, counted in input order |
| `Text.JoinEmptyIff` | app/main.py:79 | joining with `"\n"` gives `""` exactly when there are no parts or one empty part |
| `Text.SplitLinesJoin` | app/main.py:79 | splitting the newline join at newlines gives back the parts, when no part contains a newline |
| `Chat.InstructionSplitsBack` | app/main.py:78-79 | when no system content has a newline, splitting the instruction at newlines gives back the system contents in order |
| `Chat.MapRole` | app/main.py:89-96 | the provider role is always `"user"` or `"model"`, and it is `"model"` exactly for `"assistant"`; unknown roles are not rejected |
| `Chat.ToTurn` | app/main.py:98-103 | a turn keeps the message's content unchanged, has role `"user"` or `"model"`, and has role `"model"` exactly for `"assistant"` |
| `Chat.TurnsOf` | app/main.py:84-103 | at most one turn per message, and every turn's role is `"user"` or `"model"` |
| `Chat.BuildContents` | app/main.py:82-103 | the loop that skips system messages and appends mapped turns yields exactly `TurnsOf` of the messages |
| `Chat.PartitionSizes` | app/main.py:78-87 | system contents plus turns number exactly the messages: each message lands on exactly one side |
| `Chat.TurnsInOrder` | app/main.py:84-103 | the k-th turn is the k-th non-system message in input order, with its role mapped and its content unchanged |
| `Chat.TurnsOfAppend` | app/main.py:84-103 | the turns of two concatenated conversations are the turns of the first followed by those of the second |
| `Chat.AllSystem` | app/main.py:78-87 | a conversation of only system messages gives no turns, and its system contents are all the contents in order |
| `Chat.BuildConfig` | app/main.py:106-110 | a config exists exactly when the instruction is present and non-empty, and it carries that instruction |
| `Chat.ConfigPresentIff` | app/main.py:78-110 | a config is sent exactly when there are two or more system messages or some system message has non-empty content |
| `Chat.EmptySystemExamples` | app/main.py:79-110 | one empty system message gives instruction `""` and no config; two empty ones give a config carrying `"\n"` |
| `Chat.ReplyText` | app/main.py:120 | the reply is the provider's text when present, and `""` when it is absent or empty; it is never absent |
| `Chat.PrepareCall` | app/main.py:75-117 | the provider call has as many turns as there are non-system messages, a config only with a non-empty instruction, and a non-empty model name whenever the default is non-empty |
| `Chat.HandleChat` | app/main.py:74-125 | the provider is called once with `PrepareCall`'s call, whose default model is `DefaultModel` of the environment value; a returned text becomes the reply via `ReplyText`, and a raised error becomes status 500 with the error's text |
| `Chat.BeConciseExample` | app/main.py:75-110 | a system message "Be concise." and a user message "2+2?" give the default model, one user turn "2+2?" and the instruction "Be concise." |
| `Chat.RoleMappingExample` | app/main.py:89-103 | roles user, assistant, narrator give turns user, model, user, with their contents in order |

## Left out

- The FastAPI application, the `/health` route and the CORS middleware (app/main.py:35-62): framework wiring with no logic.
- Reading `GEMINI_API_KEY` and the startup failure when it is missing (app/main.py:13-15): process configuration and I/O.
- The Gemini client and the network call (app/main.py:18, 113-117): a foreign library call. `HandleChat` takes it as a function parameter.
- The SDK's `types.Content` and `types.Part` wrappers (app/main.py:99-102): a turn is a plain role and text pair.
- Pydantic validation of the request body (app/main.py:21-32): the model assumes well-formed messages with string roles and contents.
- Exceptions other than the provider's: in the model the translation steps cannot fail, so only the provider's error reaches the 500 path (app/main.py:123-125).
