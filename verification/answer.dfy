/**
 * The question-answering page: `perform_rag` embeds the question, asks the
 * vector index for the five nearest chunks, joins their texts into a context
 * block, wraps it with the question into the user turn and asks the chat model
 * with a fixed system prompt. The "Get Answer" handler refuses a blank
 * question and turns any exception of `perform_rag` into an error message.
 *
 * The embedder, the index query and the chat call are function parameters that
 * either return a value or fail with the description of their exception.
 */
module Answer {
  import opened Wrappers
  import opened Text
  import opened Embeddings

  const TopK: nat := 5
  const Namespace := "notes"
  const ChatModel := "llama-3.3-70b-versatile"
  /** The query always asks for the matches' metadata (`include_metadata=True`). */
  const IncludeMetadata := true
  const ContextSeparator := "\n\n-------\n\n"
  const WarningText := "Please enter a question first."
  const SuccessHeading := "\U{2705} Explanation:"
  const ErrorPrefix := "\U{274C} Error: "

  /** What a plain dictionary lookup `match["metadata"]` raises when the key is
      absent: Python prints a KeyError as the quoted key. */
  const MissingMetadata := "'metadata'"

  /** The teacher persona, tone rules and the fallback sentence for an answer
      the notes do not contain, character for character. */
  const SystemPrompt :=
    "\nYou are a kind, friendly, and knowledgeable physics teacher. \n"
    + "When students ask questions, carefully read the context provided. \n"
    + "Use the context to understand the idea, but do not copy-paste the text directly. \n"
    + "Instead, explain the answer in your own simple, clear words, \n"
    + "as if teaching a high school student. \n"
    + "\n"
    + "- Always simplify complex terms.  \n"
    + "- Explain in an interactive and engaging way, so the student feels interested \n"
    + "  and motivated to learn.  \n"
    + "- Use simple, everyday examples (not overly complex ones) to make the ideas clear.  \n"
    + "- Feel free to ask rhetorical questions or give fun analogies to keep the explanation lively.  \n"
    + "- If the context does not contain the answer, politely say: \n"
    + "  'I could not find the answer in the provided notes.'  \n"

  /** A match's metadata, of which only the `text` key is read. */
  datatype Metadata = Metadata(text: Option<string>)

  /** One match returned by the index query. */
  datatype Match = Match(id: Option<string>, metadata: Option<Metadata>)

  datatype Message = Message(role: string, content: string)

  /** What the page shows after "Get Answer": the warning, the success
      heading with the answer under it, or the error panel. */
  datatype Outcome = Warning(warning: string) | Answered(heading: string, answer: string) | Error(message: string)

  /** `match["metadata"].get("text", match.get("id", ""))` */
  function ContextOf(m: Match): (r: Result<string, string>)
    ensures r.Failure? <==> m.metadata.None?
    ensures r.Failure? ==> r.error == MissingMetadata
    ensures r.Success? && m.metadata.value.text.Some? ==> r.value == m.metadata.value.text.value
    ensures r.Success? && m.metadata.value.text.None? && m.id.Some? ==> r.value == m.id.value
    ensures r.Success? && m.metadata.value.text.None? && m.id.None? ==> r.value == ""
  {
    match m.metadata
    case None => Failure(MissingMetadata)
    case Some(md) =>
      match md.text
      case Some(t) => Success(t)
      case None => Success(if m.id.Some? then m.id.value else "")
  }

  /** The list comprehension over all matches: the first match without
      metadata raises. */
  function Contexts(ms: seq<Match>): (r: Result<seq<string>, string>)
    ensures r.Success? <==> AllHaveMetadata(ms)
    ensures r.Failure? ==> r.error == MissingMetadata
    ensures r.Success? ==> |r.value| == |ms|
  {
    if |ms| == 0 then Success([])
    else
      assert forall i :: 0 < i < |ms| ==> ms[1..][i - 1] == ms[i];
      match ContextOf(ms[0])
      case Failure(e) => Failure(e)
      case Success(c) =>
        match Contexts(ms[1..])
        case Failure(e) => Failure(e)
        case Success(cs) => Success([c] + cs)
  }

  predicate AllHaveMetadata(ms: seq<Match>) {
    forall i :: 0 <= i < |ms| ==> ms[i].metadata.Some?
  }

  /** When the comprehension succeeds, context `i` is the context of match
      `i`: the order of the matches is kept. */
  lemma {:induction false} ContextsSpec(ms: seq<Match>)
    ensures Contexts(ms).Success? ==>
      forall i :: 0 <= i < |ms| ==> Success(Contexts(ms).value[i]) == ContextOf(ms[i])
  {
    if |ms| > 0 {
      ContextsSpec(ms[1..]);
      if Contexts(ms).Success? {
        forall i | 0 <= i < |ms| ensures Success(Contexts(ms).value[i]) == ContextOf(ms[i]) {
          if i > 0 {
            assert ms[1..][i - 1] == ms[i];
          }
        }
      }
    }
  }

  /** `contexts[:5]` */
  function FirstContexts(contexts: seq<string>): (used: seq<string>)
    ensures |used| == if |contexts| < TopK then |contexts| else TopK
    ensures used == contexts[..|used|]
  {
    if |contexts| <= TopK then contexts else contexts[..TopK]
  }

  /** `"\n\n-------\n\n".join(contexts[:5])` */
  function ContextText(contexts: seq<string>): (block: string)
    ensures |contexts| > 0 ==> |contexts[0]| <= |block| && block[..|contexts[0]|] == contexts[0]
  {
    Join(ContextSeparator, FirstContexts(contexts))
  }

  /** At most five contexts are used, the first ones in the order the matches
      came back: each appears unchanged in the context block, a separator
      follows each but the last, and no more text than that is there. */
  lemma ContextTextPieces(contexts: seq<string>, i: nat)
    requires i < |contexts| && i < TopK
    ensures var used := FirstContexts(contexts);
      && i < |used| && used[i] == contexts[i]
      && PieceOffset(ContextSeparator, used, i) + |contexts[i]| <= |ContextText(contexts)|
      && ContextText(contexts)[PieceOffset(ContextSeparator, used, i)..PieceOffset(ContextSeparator, used, i) + |contexts[i]|] == contexts[i]
      && (i + 1 < |used| ==>
           PieceOffset(ContextSeparator, used, i) + |contexts[i]| + |ContextSeparator| <= |ContextText(contexts)| &&
           ContextText(contexts)[PieceOffset(ContextSeparator, used, i) + |contexts[i]|..PieceOffset(ContextSeparator, used, i) + |contexts[i]| + |ContextSeparator|] == ContextSeparator)
      && |ContextText(contexts)| == TotalLength(used) + (|used| - 1) * |ContextSeparator|
  {
    var used := FirstContexts(contexts);
    JoinPieceAt(ContextSeparator, used, i);
    if i + 1 < |used| {
      JoinSeparatorAfter(ContextSeparator, used, i);
    }
    JoinLength(ContextSeparator, used);
  }

  /** Contexts after the fifth never reach the prompt. */
  lemma ContextTextIgnoresRest(contexts: seq<string>, more: seq<string>)
    requires |contexts| >= TopK
    ensures ContextText(contexts + more) == ContextText(contexts)
  {
    if more == [] {
      assert contexts + more == contexts;
    } else {
      assert (contexts + more)[..TopK] == contexts[..TopK];
      assert FirstContexts(contexts + more) == contexts[..TopK];
      if |contexts| == TopK {
        assert contexts[..TopK] == contexts;
      }
    }
  }

  /** No match gives an empty block; one match gives its text, without a separator. */
  lemma ContextTextSmall(c: string)
    ensures ContextText([]) == ""
    ensures ContextText([c]) == c
  {
  }

  /** `f"Context:\n{context_text}\n\nQuestion: {query}"` */
  function AugmentedQuery(contextText: string, query: string): (u: string)
    ensures |u| == |contextText| + |query| + 21
    ensures u[..9] == "Context:\n"
    ensures u[9..9 + |contextText|] == contextText
    ensures u[9 + |contextText|..|u| - |query|] == "\n\nQuestion: "
    ensures u[|u| - |query|..] == query
  {
    var u := "Context:\n" + contextText + "\n\nQuestion: " + query;
    assert u == "Context:\n" + (contextText + ("\n\nQuestion: " + query));
    u
  }

  /** The two-message conversation: the system prompt, then the user turn. */
  function Conversation(contextText: string, query: string): (msgs: seq<Message>)
    ensures |msgs| == 2
    ensures msgs[0].role == "system" && msgs[1].role == "user"
    ensures msgs[0].content == SystemPrompt && msgs[1].content == AugmentedQuery(contextText, query)
  {
    [Message("system", SystemPrompt), Message("user", AugmentedQuery(contextText, query))]
  }

  /** `perform_rag(query)`: every external call may raise, and the first
      exception is what the call raises. */
  function PerformRag(
    query: string,
    embed: string -> Result<Embedding, string>,
    search: (Embedding, nat, string, bool) -> Result<seq<Match>, string>,
    chat: (string, seq<Message>) -> Result<string, string>): (r: Result<string, string>)
    ensures r.Success? ==>
      && embed(query).Success?
      && search(embed(query).value, TopK, Namespace, IncludeMetadata).Success?
      && AllHaveMetadata(search(embed(query).value, TopK, Namespace, IncludeMetadata).value)
  {
    match embed(query)
    case Failure(e) => Failure(e)
    case Success(v) =>
      match search(v, TopK, Namespace, IncludeMetadata)
      case Failure(e) => Failure(e)
      case Success(ms) =>
        match Contexts(ms)
        case Failure(e) => Failure(e)
        case Success(cs) => chat(ChatModel, Conversation(ContextText(cs), query))
  }

  /** Once the question is embedded and every match has metadata, what
      `perform_rag` returns or raises is what the chat model returns or raises,
      unchanged, for the system prompt and a user turn built from the first
      five matches and the question as typed; the index was asked for five
      matches, with metadata, in the notes namespace. */
  lemma PerformRagAnswer(
    query: string,
    embed: string -> Result<Embedding, string>,
    search: (Embedding, nat, string, bool) -> Result<seq<Match>, string>,
    chat: (string, seq<Message>) -> Result<string, string>)
    requires embed(query).Success?
    requires search(embed(query).value, TopK, Namespace, IncludeMetadata).Success?
    requires AllHaveMetadata(search(embed(query).value, TopK, Namespace, IncludeMetadata).value)
    ensures var ms := search(embed(query).value, TopK, Namespace, IncludeMetadata).value;
      PerformRag(query, embed, search, chat)
      == chat(ChatModel, Conversation(ContextText(Contexts(ms).value), query))
  {
  }

  /** With no match the composer still asks the model, with an empty context
      block, instead of failing. */
  lemma PerformRagNoMatches(
    query: string,
    embed: string -> Result<Embedding, string>,
    search: (Embedding, nat, string, bool) -> Result<seq<Match>, string>,
    chat: (string, seq<Message>) -> Result<string, string>)
    requires embed(query).Success?
    requires search(embed(query).value, TopK, Namespace, IncludeMetadata) == Success([])
    ensures PerformRag(query, embed, search, chat)
         == chat(ChatModel, [Message("system", SystemPrompt), Message("user", "Context:\n\n\nQuestion: " + query)])
  {
    assert AugmentedQuery("", query) == "Context:\n\n\nQuestion: " + query;
  }

  /** A failure of the embedder or of the index query is what `perform_rag`
      raises; nothing later is called. */
  lemma PerformRagPropagates(
    query: string,
    embed: string -> Result<Embedding, string>,
    search: (Embedding, nat, string, bool) -> Result<seq<Match>, string>,
    chat: (string, seq<Message>) -> Result<string, string>)
    ensures embed(query).Failure? ==> PerformRag(query, embed, search, chat) == Failure(embed(query).error)
    ensures embed(query).Success? && search(embed(query).value, TopK, Namespace, IncludeMetadata).Failure? ==>
      PerformRag(query, embed, search, chat) == Failure(search(embed(query).value, TopK, Namespace, IncludeMetadata).error)
  {
  }

  /** A match without metadata makes `perform_rag` raise, even one after the
      fifth: the comprehension reads every match before the slice keeps five. */
  lemma PerformRagMissingMetadata(
    query: string,
    embed: string -> Result<Embedding, string>,
    search: (Embedding, nat, string, bool) -> Result<seq<Match>, string>,
    chat: (string, seq<Message>) -> Result<string, string>)
    requires embed(query).Success?
    requires search(embed(query).value, TopK, Namespace, IncludeMetadata).Success?
    requires !AllHaveMetadata(search(embed(query).value, TopK, Namespace, IncludeMetadata).value)
    ensures PerformRag(query, embed, search, chat) == Failure(MissingMetadata)
  {
  }

  /** The "Get Answer" handler. `rag` stands for `perform_rag`: it returns the
      answer or fails with the description of what it raised. */
  function HandleGetAnswer(query: string, rag: string -> Result<string, string>): (o: Outcome)
    ensures o.Warning? <==> IsBlank(query)
    ensures o.Warning? ==> o.warning == WarningText
    ensures o.Answered? <==> !IsBlank(query) && rag(query).Success?
    ensures o.Answered? ==> o.heading == SuccessHeading && o.answer == rag(query).value
    ensures o.Error? ==> rag(query).Failure? && o.message == ErrorPrefix + rag(query).error
  {
    if !IsBlank(query) then
      match rag(query)
      case Success(answer) => Answered(SuccessHeading, answer)
      case Failure(e) => Error(ErrorPrefix + e)
    else
      Warning(WarningText)
  }

  /** A blank question never reaches `perform_rag`: the outcome is the warning
      whatever `perform_rag` would have done. */
  lemma BlankQuestionNotAsked(query: string, rag1: string -> Result<string, string>, rag2: string -> Result<string, string>)
    requires forall i :: 0 <= i < |query| ==> IsSpace(query[i])
    ensures HandleGetAnswer(query, rag1) == HandleGetAnswer(query, rag2) == Warning(WarningText)
  {
    BlankIffAllSpace(query);
  }

  /** The error panel's text gives back the exception's description. */
  lemma ErrorMessageParts(query: string, rag: string -> Result<string, string>)
    requires HandleGetAnswer(query, rag).Error?
    ensures var m := HandleGetAnswer(query, rag).message;
      |m| >= |ErrorPrefix| && m[..|ErrorPrefix|] == ErrorPrefix && m[|ErrorPrefix|..] == rag(query).error
  {
  }

  /** The page as a whole: the handler wired to `perform_rag`. */
  function Page(
    query: string,
    embed: string -> Result<Embedding, string>,
    search: (Embedding, nat, string, bool) -> Result<seq<Match>, string>,
    chat: (string, seq<Message>) -> Result<string, string>): (o: Outcome)
    ensures o.Warning? <==> IsBlank(query)
    ensures IsBlank(query) ==> o == Warning(WarningText)
    ensures !IsBlank(query) ==>
      var r := PerformRag(query, embed, search, chat);
      o == if r.Success? then Answered(SuccessHeading, r.value) else Error(ErrorPrefix + r.error)
  {
    HandleGetAnswer(query, q => PerformRag(q, embed, search, chat))
  }
}
