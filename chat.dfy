/**
 * The `/stream` handler's decision and composition: a masked message is
 * answered with the attribution; any other message becomes a two-message
 * completion request (system prompt, then knowledge context and message),
 * and the reply is the in-order text of the non-empty fragments the
 * completion service streams back.
 */
module Chat {
  import opened Wrappers
  import opened Text
  import opened Masking
  import opened Knowledge

  datatype Role = System | User

  /** One role-tagged message of a completion request. */
  datatype ChatMessage = ChatMessage(role: Role, content: string)

  /** The arguments of the streaming completion call. */
  datatype CompletionRequest = CompletionRequest(model: string, messages: seq<ChatMessage>, stream: bool)

  /** One streamed chunk: the `delta.content` of each of its choices, which the
      service may leave out (`None`). */
  datatype Chunk = Chunk(choices: seq<Option<string>>)

  /** What the handler answers with. */
  datatype Reply =
    | Masked(text: string)                                        // answered locally
    | Streamed(request: CompletionRequest, fragments: seq<string>) // delegated to the model

  const ModelId: string := "llama-3.1-8b-instant"

  const SystemPrompt: string :=
    "You are ChatPTK, a friendly AI tutor.\nUse the knowledge if relevant.\nDo not say you are an AI model."

  /** The user turn `f"{context}\n\n{user_msg}"`. */
  function UserTurn(context: string, userMsg: string): (t: string)
    ensures |t| == |context| + 2 + |userMsg|
    ensures t[..|context|] == context && t[|context|..|context| + 2] == "\n\n"
    ensures t[|context| + 2..] == userMsg
  {
    context + "\n\n" + userMsg
  }

  /** The request sent when the message is not masked: exactly two messages,
      the system prompt first and the user turn second, streamed. */
  function ComposeRequest(context: string, userMsg: string): (r: CompletionRequest)
    ensures r.model == ModelId && r.stream
    ensures |r.messages| == 2
    ensures r.messages[0] == ChatMessage(System, SystemPrompt)
    ensures r.messages[1].role == User
    ensures |r.messages[1].content| == |context| + 2 + |userMsg|
    ensures r.messages[1].content[..|context|] == context
    ensures r.messages[1].content[|context|..|context| + 2] == "\n\n"
    ensures r.messages[1].content[|context| + 2..] == userMsg
  {
    CompletionRequest(ModelId, [ChatMessage(System, SystemPrompt), ChatMessage(User, UserTurn(context, userMsg))], true)
  }

  /** The text a chunk yields: its first choice's delta content, when the chunk
      has choices and that content is present and non-empty. */
  function Yield(chunk: Chunk): (r: Option<string>)
    ensures r.Some? ==> r.value != "" && |chunk.choices| > 0 && chunk.choices[0] == Some(r.value)
    ensures r.None? <==> |chunk.choices| == 0 || chunk.choices[0] == None || chunk.choices[0] == Some("")
  {
    if |chunk.choices| > 0 && chunk.choices[0].Some? && chunk.choices[0].value != "" then
      Some(chunk.choices[0].value)
    else
      None
  }

  /** The fragments `generate` yields for `chunks`, in arrival order. */
  function Fragments(chunks: seq<Chunk>): seq<string>
    decreases |chunks|
  {
    if |chunks| == 0 then
      []
    else
      var last := chunks[|chunks| - 1];
      Fragments(chunks[..|chunks| - 1]) + (if Yield(last).Some? then [Yield(last).value] else [])
  }

  /** The first choice's text of every chunk, with a missing one read as "":
      what a consumer that did not filter would have concatenated. */
  function Texts(chunks: seq<Chunk>): seq<string>
    decreases |chunks|
  {
    if |chunks| == 0 then
      []
    else
      var c := chunks[0];
      [if |c.choices| > 0 then c.choices[0].GetOr("") else ""] + Texts(chunks[1..])
  }

  /** `generate()`: walks the stream and yields each present, non-empty fragment. */
  method Generate(chunks: seq<Chunk>) returns (yielded: seq<string>)
    ensures yielded == Fragments(chunks)
    ensures forall j :: 0 <= j < |yielded| ==> yielded[j] != ""
  {
    yielded := [];
    for i := 0 to |chunks|
      invariant yielded == Fragments(chunks[..i])
      invariant forall j :: 0 <= j < |yielded| ==> yielded[j] != ""
    {
      var choices := chunks[i].choices;
      if |choices| > 0 && choices[0].Some? && choices[0].value != "" {
        yielded := yielded + [choices[0].value];
      }
      assert chunks[..i + 1][..i] == chunks[..i];
    }
    assert chunks[..|chunks|] == chunks;
  }

  /** The reply body as the client receives it (before UTF-8 encoding). */
  function Body(reply: Reply): string {
    match reply
    case Masked(text) => text
    case Streamed(_, fragments) => Concat(fragments)
  }

  /** `stream()`: masks first; otherwise looks up the knowledge context,
      composes the request and streams the completion's fragments. The
      completion service's answer to the request is the parameter `upstream`. */
  method Stream(lessons: seq<Lesson>, message: Option<string>, upstream: seq<Chunk>) returns (reply: Reply)
    ensures reply.Masked? <==> Marites(message.GetOr("")).Some?
    ensures reply.Masked? ==> reply.text == Attribution
    ensures reply.Streamed? ==>
      reply.request == ComposeRequest(Join("\n", Matching(lessons, message.GetOr(""))), message.GetOr(""))
      && reply.fragments == Fragments(upstream)
    ensures reply.Masked? ==> Body(reply) == Attribution
    ensures reply.Streamed? ==> Body(reply) == Concat(Texts(upstream))
  {
    var userMsg := message.GetOr("");
    var masked := Marites(userMsg);
    if masked.Some? && masked.value != "" {
      return Masked(masked.value);
    }
    var context := GetRelevantKnowledge(lessons, userMsg);
    var request := ComposeRequest(context, userMsg);
    var yielded := Generate(upstream);
    reply := Streamed(request, yielded);
    FragmentsKeepText(upstream);
  }

  /** Streaming is incremental: the fragments of a longer stream extend those of
      any prefix of it, so nothing already sent is ever revised. */
  lemma {:induction false} FragmentsAppend(a: seq<Chunk>, b: seq<Chunk>)
    ensures Fragments(a + b) == Fragments(a) + Fragments(b)
    decreases |b|
  {
    if |b| == 0 {
      assert a + b == a;
    } else {
      var n := |b| - 1;
      assert (a + b)[..|a + b| - 1] == a + b[..n];
      FragmentsAppend(a, b[..n]);
    }
  }

  /** Dropping the empty and missing deltas does not change the text: the body
      is the concatenation of every chunk's first-choice text. */
  lemma {:induction false} FragmentsKeepText(chunks: seq<Chunk>)
    ensures Concat(Fragments(chunks)) == Concat(Texts(chunks))
    decreases |chunks|
  {
    if |chunks| > 0 {
      var c := chunks[0];
      var rest := chunks[1..];
      assert chunks == [c] + rest;
      FragmentsAppend([c], rest);
      FragmentsKeepText(rest);
      assert [c][..0] == [];
      ConcatAppend(Fragments([c]), Fragments(rest));
    }
  }

  /** A chunk whose first choice carries non-empty text has that text in the
      reply; every yielded fragment is non-empty and there are never more
      fragments than chunks. */
  lemma {:induction false} FragmentsComplete(chunks: seq<Chunk>, i: nat)
    requires i < |chunks|
    requires |chunks[i].choices| > 0 && chunks[i].choices[0].Some? && chunks[i].choices[0].value != ""
    ensures chunks[i].choices[0].value in Fragments(chunks)
    decreases |chunks|
  {
    var n := |chunks| - 1;
    if i < n {
      FragmentsComplete(chunks[..n], i);
    }
  }

  /** Fragments are never empty and never outnumber the chunks. */
  lemma {:induction false} FragmentsBounded(chunks: seq<Chunk>)
    ensures |Fragments(chunks)| <= |chunks|
    ensures forall j :: 0 <= j < |Fragments(chunks)| ==> Fragments(chunks)[j] != ""
    decreases |chunks|
  {
    if |chunks| > 0 {
      FragmentsBounded(chunks[..|chunks| - 1]);
    }
  }
}
