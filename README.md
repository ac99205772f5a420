# ChatPTK backend: message interception and prompt assembly

This project is a Dafny model of the request path of the ChatPTK tutor's
`/stream` endpoint (`app.py`). The endpoint does three things with a chat message:

- **Identity mask (`marites`).** It lower-cases the message. If any of seven
  fixed trigger phrases ("who created", "who made you", "developer",
  "programmer", "who built you", "creator", "who coded") occurs in it, the
  handler answers with a fixed attribution string and does nothing else.
- **Knowledge match (`get_relevant_knowledge`).** It scans the lessons table in
  order. It collects the `content` of every lesson whose lower-cased `topic`
  occurs in the lower-cased message. It joins the collected contents with
  `"\n"`.
- **Composition and streaming (`stream`, `generate`).** An unmasked message
  becomes one streaming completion request for model `llama-3.1-8b-instant`. The
  request holds exactly two messages: the fixed system prompt, then a user turn
  `context + "\n\n" + message`. The reply is the text of every streamed chunk
  whose first choice carries a present, non-empty delta, in arrival order.

Modules:
- `Wrappers` (`wrappers.dfy`): `Option`.
- `Text` (`text.dfy`): Python's substring test, ASCII `lower`, `join`.
- `Masking` (`masking.dfy`): `marites`.
- `Knowledge` (`knowledge.dfy`): `get_relevant_knowledge`.
- `Chat` (`chat.dfy`): `stream` and `generate`.

The two loops of the source become methods with loops. `GetRelevantKnowledge`
appends to `matches`, and `Generate` walks the chunks. Each is proved against a
specification function (`Matching`, `Fragments`). The lemmas beside those
functions state what the source promises: table order is kept, there is one
piece per matching lesson, nothing else is included, and case does not matter.
For the stream: output only grows as chunks arrive, and dropping empty deltas
does not change the text.

The lessons table is a parameter (`seq<Lesson>`). The completion service's
streamed answer is a parameter too: a `seq<Chunk>`, where each chunk lists the
optional `delta.content` of its choices.

## Model

| member | source | states |
|---|---|---|
| Text.Contains | app.py:37 | the executable substring test is true exactly when some window of the haystack equals the needle (Python `in`; the empty needle always occurs) |
| Knowledge.TopicMatches | app.py:36-37 | a lesson matches exactly when its lower-cased topic is a substring of the lower-cased message |
| Chat.Yield | app.py:71 | a chunk yields text exactly when it has a choice whose delta content is present and not ""; the text yielded is that content |
| Text.LowerIsLower | app.py:21 | lower-casing yields a lower-case string, leaves lower-case strings unchanged, and is idempotent |
| Text.LowerKeepsSubstring | app.py:21-23 | if a phrase occurs in a text, its lower-case form occurs in the text's lower-case form |
| Text.JoinSnoc | app.py:38-40 | joining a list extended by one part is the old join, the separator, then the new part: collection order is output order |
| Text.Join | app.py:40 | `"\n".join(matches)`: no parts give ""; otherwise the result's length is the parts' total length plus one separator per pair of neighbours, and it begins with the first part |
| Text.Lower | app.py:21 | `str.lower` on ASCII: the result has the input's length; each capital A-Z becomes its lower-case letter, and every other character is unchanged |
| Text.ConcatAppend | app.py:70-72 | concatenating two lists of fragments is concatenating each list and joining the results |
| Masking.AnyOccurs | app.py:23 | `any(k in text for k in keywords)` is true exactly when some listed phrase is a substring of the text |
| Masking.Marites | app.py:16-28 | returns a value exactly when some trigger phrase occurs in the lower-cased text; the only possible results are the attribution string and None |
| Masking.MaritesIgnoresCase | app.py:21 | a message and its lower-case form get the same mask result |
| Masking.MaritesFiresOnKeyword | app.py:17-27 | any text that contains a trigger phrase verbatim is masked with the attribution |
| Masking.MaritesExample | app.py:17-27 | "Who Made You?" is masked even though it is capitalised |
| Masking.MaritesIgnoresShortText | app.py:17-28 | a text shorter than seven characters is never masked (every trigger phrase is at least that long) |
| Knowledge.GetRelevantKnowledge | app.py:31-40 | the loop produces the newline-join of the matching lessons' contents in table order; if no topic occurs in the message, the result is "" |
| Knowledge.MatchingAppend | app.py:35-38 | the result for a table split in two is the first half's matches followed by the second half's: table order is preserved |
| Knowledge.MatchingSingle | app.py:36-38 | a single lesson contributes its content exactly when its lower-cased topic occurs in the lower-cased message |
| Knowledge.MatchingCount | app.py:35-38 | the number of collected pieces equals the number of lessons whose topic matches |
| Knowledge.MatchingEmptyIff | app.py:33-40 | nothing is collected exactly when no lesson's topic matches |
| Knowledge.MatchingSound | app.py:35-38 | every collected piece is the content of a lesson whose topic matches |
| Knowledge.MatchingComplete | app.py:35-38 | the content of every matching lesson is collected |
| Knowledge.MatchingIgnoresMessageCase | app.py:32 | two messages that are equal up to letter case select the same pieces |
| Knowledge.MatchingIgnoresTopicCase | app.py:36 | two tables whose topics are equal up to letter case select the same pieces |
| Knowledge.EmptyTopicMatchesAll | app.py:36-37 | a lesson with an empty topic matches every message |
| Chat.UserTurn | app.py:65 | the user turn is the context, then two newlines, then the message; both parts can be read back from the turn |
| Chat.ComposeRequest | app.py:54-68 | the request names the fixed model and asks for streaming; it has exactly two messages: the fixed system prompt, then a user message that is the context, the two characters "\n\n", then the message |
| Chat.Generate | app.py:70-72 | the loop yields exactly the fragments of `Fragments`, in order, and none of them is empty |
| Chat.Stream | app.py:45-72 | a masked message gets the attribution and nothing else (no request, no fragments); otherwise the reply carries the composed request with the knowledge context and the fragments of the stream; the body is then every chunk's first-choice text concatenated in order; a missing message is read as "" |
| Chat.FragmentsAppend | app.py:70-72 | the fragments of a longer stream extend those of any prefix, so output already sent is never revised |
| Chat.FragmentsKeepText | app.py:70-72 | dropping missing and empty deltas does not change the text: the body equals the concatenation of every chunk's first-choice text |
| Chat.FragmentsComplete | app.py:71-72 | a chunk whose first choice carries non-empty text has that text among the yielded fragments |
| Chat.FragmentsBounded | app.py:71-72 | no yielded fragment is empty, and there are never more fragments than chunks |

## Left out

- Flask setup, routing, `request.json` parsing and `Response` construction (app.py:1,6,43-44,74,77-78). These are web-framework plumbing. The message field is an `Option<string>`; an absent field reads as "", as `.get("message", "")` does.
- The Groq client and the streaming `chat.completions.create` call (app.py:9,61-68). They are a network call into a library that is not part of this model. The request is modelled as a value (`CompletionRequest`). The service's answer is a given sequence of chunks. The model does not capture that the call is made lazily, only once the response body is consumed.
- Loading `knowledge.json` and reading the API key from the environment (app.py:9,12-13). This is file and environment I/O. The lessons table is a parameter.
- `generate` (app.py:60-72) has no error handling. A failing completion call ends the response body early. In the model, the upstream is always a complete chunk sequence.
- A `message` field that is present but null, or not a string, is excluded. `Option<string>` cannot represent it. The source fails on it: `marites` calls `.lower()` on it (app.py:21), the handler raises, and Flask answers with a server error. A body that is not JSON is excluded for the same reason.
- UTF-8 encoding of the reply (app.py:50,72). This is a transport detail. Bodies are modelled as strings.
- Text.Lower: lower-cases ASCII letters only, whereas Python's `str.lower` is full Unicode case mapping. The model can differ from Python only on text that contains non-ASCII characters with a lower-case mapping (for example U+2160, which Python maps to U+2170).
- The `if masked:` truthiness test is modelled as "present and non-empty". The attribution string is non-empty, so this is the same as "present".
