/**
  The answer flow (`generate_response`) as pure assembly over the answers
  its collaborators give: the prompt embedding, the web search, the
  vector query, the parsed message history and the generation call are
  inputs. What it returns is the generated text, or the error for which
  the endpoint answers with status 500.
 */
module Answer {
  import opened Wrappers
  import opened Text
  import opened Store

  /** One turn of the caller-supplied conversation history. */
  datatype Turn = Turn(role: string, text: string)

  datatype SearchItem = SearchItem(title: string, link: string, snippet: string)

  /**
    What the web-search step yields: its result items, or the text of the
    exception that ended it (the search client's own error string is not a
    list, so formatting it raises and ends up here too).
   */
  datatype SearchOutcome = Found(items: seq<SearchItem>) | SearchFailed(detail: string)

  /** The vector query: its `documents` field (`None` when absent or null), or an exception. */
  datatype QueryOutcome = Documents(documents: Option<seq<seq<string>>>) | QueryFailed

  /**
    The generation call: the `response` field of the reply, a connection or
    HTTP error, a body that is not JSON, or JSON without a `response` field.
   */
  datatype GenerateOutcome = Generated(response: string) | ConnectionFailed(detail: string) | NotJson(body: string) | NoResponseField

  /**
    The form fields of a request; `history` is the parsed `message_history`,
    `None` when it is not JSON or not a list of `{role, text}` objects.
   */
  datatype AnswerRequest = AnswerRequest(
    prompt: string,
    filename: string,
    webSearchEnabled: bool,
    history: Option<seq<Turn>>,
    fileUploaded: bool,
    model: string)

  /** The collaborators: embedding, search (given the query), vector query (given embedding and filename), generation (given model and prompt). */
  datatype AnswerServices = AnswerServices(
    embed: string -> Option<Embedding>,
    search: string -> SearchOutcome,
    query: (Embedding, string) -> QueryOutcome,
    generate: (string, string) -> GenerateOutcome)

  /** The failures that end the request with status 500. */
  datatype AnswerError = PromptEmbeddingFailed | VectorQueryFailed | GenerationFailed

  const NoChunksFound := "No relevant chunks found."
  const SearchErrorPrefix := "Error during web search: "
  const HistoryError := "Error parsing message history"

  // ---------------------------------------------------------------
  // Model resolution
  // ---------------------------------------------------------------

  /** The request's model, overridden by the model recorded for a non-empty, known filename. */
  function ResolveModel(requested: string, filename: string, filenameToModel: map<string, string>): (model: string)
    ensures filename != "" && filename in filenameToModel ==> model == filenameToModel[filename]
    ensures filename == "" || filename !in filenameToModel ==> model == requested
  {
    if filename != "" && filename in filenameToModel then filenameToModel[filename] else requested
  }

  // ---------------------------------------------------------------
  // Document context
  // ---------------------------------------------------------------

  /** The context built from a query result: the fallback when documents are missing or empty, else the first list joined by newlines. */
  function RetrievedContext(documents: Option<seq<seq<string>>>): (context: string)
    ensures documents == None || documents == Some([]) ==> context == NoChunksFound
    ensures documents.Some? && documents.value != [] ==> context == Join("\n", documents.value[0])
  {
    match documents
    case None => NoChunksFound
    case Some(lists) => if lists == [] then NoChunksFound else Join("\n", lists[0])
  }

  /** Whether the flow consults the vector store at all. */
  predicate QueriesStore(request: AnswerRequest) {
    request.fileUploaded && request.filename != ""
  }

  /**
    The document context: empty unless a file was uploaded and a filename
    given; then the retrieved context for a query filtered on that
    filename, or the error when the query raises.
   */
  function DocumentContext(request: AnswerRequest, embedding: Embedding, query: (Embedding, string) -> QueryOutcome): (r: Result<string, AnswerError>)
    ensures !QueriesStore(request) ==> r == Success("")
    ensures QueriesStore(request) && query(embedding, request.filename).QueryFailed? ==> r == Failure(VectorQueryFailed)
    ensures QueriesStore(request) && query(embedding, request.filename).Documents? ==>
              r == Success(RetrievedContext(query(embedding, request.filename).documents))
  {
    if QueriesStore(request) then
      match query(embedding, request.filename)
      case QueryFailed => Failure(VectorQueryFailed)
      case Documents(d) => Success(RetrievedContext(d))
    else
      Success("")
  }

  // ---------------------------------------------------------------
  // Web search context
  // ---------------------------------------------------------------

  /** The search query: the prompt without surrounding whitespace. */
  function WebSearchQuery(prompt: string): (query: string)
    ensures NoEdgeSpace(query)
  {
    Strip(prompt)
  }

  /** One search result as the prompt shows it. */
  function SourceBlock(item: SearchItem): string {
    "Source: " + item.link + "\n" + item.snippet
  }

  /** The search results, as source blocks separated by blank lines, or the error text. */
  function SearchContext(outcome: SearchOutcome): (context: string)
    ensures outcome.SearchFailed? ==> context == SearchErrorPrefix + outcome.detail
    ensures outcome == Found([]) ==> context == ""
  {
    match outcome
    case Found(items) => Join("\n\n", seq(|items|, i requires 0 <= i < |items| => SourceBlock(items[i])))
    case SearchFailed(detail) => SearchErrorPrefix + detail
  }

  /** One result shows as its link and snippet under a "Source:" label. */
  lemma SingleSearchResult(item: SearchItem)
    ensures SearchContext(Found([item])) == "Source: " + item.link + "\n" + item.snippet
  {
    assert seq(1, i requires 0 <= i < 1 => SourceBlock([item][i])) == [SourceBlock(item)];
  }

  /** One more result adds a blank line and its source block after the earlier ones. */
  lemma SearchContextAppend(items: seq<SearchItem>, item: SearchItem)
    requires items != []
    ensures SearchContext(Found(items + [item])) == SearchContext(Found(items)) + "\n\n" + SourceBlock(item)
  {
    var blocks := seq(|items|, i requires 0 <= i < |items| => SourceBlock(items[i]));
    var all := items + [item];
    assert seq(|all|, i requires 0 <= i < |all| => SourceBlock(all[i])) == blocks + [SourceBlock(item)];
    JoinAppend("\n\n", blocks, SourceBlock(item));
  }

  // ---------------------------------------------------------------
  // History
  // ---------------------------------------------------------------

  /** One history turn: the upper-cased role in bold, then the text. */
  function HistoryLine(turn: Turn): string {
    "**" + Upper(turn.role) + ":** " + turn.text
  }

  /** The transcript handed to the model, or the placeholder when the history could not be parsed. */
  function HistoryText(history: Option<seq<Turn>>): (text: string)
    ensures history == None ==> text == HistoryError
    ensures history == Some([]) ==> text == ""
  {
    match history
    case None => HistoryError
    case Some(turns) => Join("\n", seq(|turns|, i requires 0 <= i < |turns| => HistoryLine(turns[i])))
  }

  lemma SingleTurnHistory()
    ensures HistoryText(Some([Turn("user", "hi")])) == "**USER:** hi"
  {
    assert Upper("user") == "USER";
  }

  /** One more turn adds a newline and its line after the earlier ones. */
  lemma HistoryTextAppend(turns: seq<Turn>, turn: Turn)
    requires turns != []
    ensures HistoryText(Some(turns + [turn])) == HistoryText(Some(turns)) + "\n" + HistoryLine(turn)
  {
    var lines := seq(|turns|, i requires 0 <= i < |turns| => HistoryLine(turns[i]));
    var all := turns + [turn];
    assert seq(|all|, i requires 0 <= i < |all| => HistoryLine(all[i])) == lines + [HistoryLine(turn)];
    JoinAppend("\n", lines, HistoryLine(turn));
  }

  // ---------------------------------------------------------------
  // Prompt
  // ---------------------------------------------------------------

  const DocumentHeading := "Document context:\n"
  const WebHeading := "\n\nWeb search results:\n"

  /** The two contexts under their headings. */
  function FinalContext(documentContext: string, webContext: string): (context: string)
    ensures Occurs(DocumentHeading, context, 0)
    ensures Occurs(documentContext, context, |DocumentHeading|)
    ensures Occurs(WebHeading, context, |DocumentHeading| + |documentContext|)
    ensures Occurs(webContext, context, |DocumentHeading| + |documentContext| + |WebHeading|)
    ensures |context| == |DocumentHeading| + |documentContext| + |WebHeading| + |webContext| + 2
    ensures context[|context| - 2..] == "\n\n"
  {
    var context := DocumentHeading + documentContext + WebHeading + webContext + "\n\n";
    var a := |DocumentHeading|;
    var b := a + |documentContext|;
    var c := b + |WebHeading|;
    assert context[..a] == DocumentHeading;
    assert context[a..b] == documentContext;
    assert context[b..c] == WebHeading;
    assert context[c..c + |webContext|] == webContext;
    context
  }

  /** A part of a part of a whole is a part of the whole, at the summed offset. */
  lemma OccursWithin(part: string, middle: string, whole: string, i: nat, j: nat)
    requires Occurs(part, middle, i) && Occurs(middle, whole, j)
    ensures Occurs(part, whole, j + i)
  {
    forall k | 0 <= k < |part|
      ensures whole[j + i + k] == part[k]
    {
      assert part[k] == middle[i + k];
      assert middle[i + k] == whole[j + (i + k)];
    }
  }

  /**
    The fixed wording of the prompt: the instructions that open it, the
    heading before the context, and the text around the model name.
   */
  datatype Wording = Wording(instructions: string, contextHeading: string, modelIntro: string, modelRules: string)

  /** The wording the backend sends. */
  const BackendWording := Wording(
    "You are a helpful AI assistant. Use the context provided to answer the user's question. "
    + "Please provide a detailed and verbose response, explaining your reasoning step by step. If you are referencing multiple concepts in a list, please only provide the top 5.\n\n"
    + "Make sure to format the response with paragraphs (using double newlines), and use code blocks (using triple backticks) when appropriate. **Make sure to include citations and source links at the end of the response, after all other text**. "
    + "Specifically, if any of the web search results were used, please cite the source links in the response. If the question is to find the current date, you MUST use web search to answer it. You must also take into account the following conversation history to answer the user's question:\n",
    "\n\nHere is the context for the current question:\n",
    "\n\nYou are using the ",
    " model. When you answer the question, make sure to be very detailed, verbose and comprehensive.\n\n"
    + "You must answer in a human-like scientific writing style, all the answers must be undetectable by online AI checkers. \n\n")

  function ModelLines(wording: Wording, model: string): string {
    wording.modelIntro + model + wording.modelRules
  }

  function QuestionLines(question: string): string {
    "Question: " + question + "\nAnswer:\n"
  }

  /** `part` stands in `whole` at offset `at`. */
  predicate Occurs(part: string, whole: string, at: nat) {
    at + |part| <= |whole| && whole[at..at + |part|] == part
  }

  /**
    The prompt sent for generation: the fixed instructions, then the
    transcript, then the context, then the model line, and it ends with the
    question.
   */
  function FinalPrompt(wording: Wording, history: string, context: string, model: string, question: string): (prompt: string)
    ensures Occurs(wording.instructions, prompt, 0)
    ensures Occurs(history, prompt, |wording.instructions|)
    ensures Occurs(wording.contextHeading, prompt, |wording.instructions| + |history|)
    ensures Occurs(context, prompt, |wording.instructions| + |history| + |wording.contextHeading|)
    ensures Occurs(ModelLines(wording, model), prompt, |wording.instructions| + |history| + |wording.contextHeading| + |context|)
    ensures |prompt| >= |QuestionLines(question)| && prompt[|prompt| - |QuestionLines(question)|..] == QuestionLines(question)
    ensures |prompt| == |wording.instructions| + |history| + |wording.contextHeading| + |context| + |ModelLines(wording, model)| + |QuestionLines(question)|
  {
    var prompt := wording.instructions + history + wording.contextHeading + context + ModelLines(wording, model) + QuestionLines(question);
    SixParts(wording.instructions, history, wording.contextHeading, context, ModelLines(wording, model), QuestionLines(question));
    prompt
  }

  /** Each of six concatenated strings stands at the sum of the lengths before it. */
  lemma SixParts(p1: string, p2: string, p3: string, p4: string, p5: string, p6: string)
    ensures var whole := p1 + p2 + p3 + p4 + p5 + p6;
            && Occurs(p1, whole, 0)
            && Occurs(p2, whole, |p1|)
            && Occurs(p3, whole, |p1| + |p2|)
            && Occurs(p4, whole, |p1| + |p2| + |p3|)
            && Occurs(p5, whole, |p1| + |p2| + |p3| + |p4|)
            && |whole| == |p1| + |p2| + |p3| + |p4| + |p5| + |p6|
            && whole[|whole| - |p6|..] == p6
  {
    var w1 := p1 + p2;
    var w2 := w1 + p3;
    var w3 := w2 + p4;
    var w4 := w3 + p5;
    var whole := w4 + p6;
    TwoParts(w4, p6);
    TwoParts(w3, p5);
    OccursWithin(p5, w4, whole, |w3|, 0);
    OccursWithin(w3, w4, whole, 0, 0);
    TwoParts(w2, p4);
    OccursWithin(p4, w3, whole, |w2|, 0);
    OccursWithin(w2, w3, whole, 0, 0);
    TwoParts(w1, p3);
    OccursWithin(p3, w2, whole, |w1|, 0);
    OccursWithin(w1, w2, whole, 0, 0);
    TwoParts(p1, p2);
    OccursWithin(p2, w1, whole, |p1|, 0);
    OccursWithin(p1, w1, whole, 0, 0);
  }

  /** Both halves of a concatenation stand in it, the second right after the first. */
  lemma TwoParts(x: string, y: string)
    ensures Occurs(x, x + y, 0) && Occurs(y, x + y, |x|)
  {
    assert (x + y)[..|x|] == x;
    assert (x + y)[|x|..] == y;
  }

  /** The web-search context stands in the prompt right after the document context and its heading. */
  lemma WebResultsInPrompt(wording: Wording, history: string, documentContext: string, webContext: string, model: string, question: string)
    ensures Occurs(webContext, FinalPrompt(wording, history, FinalContext(documentContext, webContext), model, question),
                   |wording.instructions| + |history| + |wording.contextHeading| + |DocumentHeading| + |documentContext| + |WebHeading|)
  {
    var context := FinalContext(documentContext, webContext);
    OccursWithin(webContext, context, FinalPrompt(wording, history, context, model, question),
                 |DocumentHeading| + |documentContext| + |WebHeading|, |wording.instructions| + |history| + |wording.contextHeading|);
  }

  // ---------------------------------------------------------------
  // The flow
  // ---------------------------------------------------------------

  /** The generation reply as `get_ollama_response` hands it back; only a reply without a `response` field raises. */
  function OllamaReply(outcome: GenerateOutcome): (r: Result<string, AnswerError>)
    ensures r.Failure? <==> outcome == NoResponseField
    ensures outcome.Generated? ==> r == Success(outcome.response)
    ensures outcome.ConnectionFailed? ==> r == Success("Error: Failed to connect to the Ollama API: " + outcome.detail)
    ensures outcome.NotJson? ==> r == Success("Error: Could not decode JSON response: " + outcome.body)
  {
    match outcome
    case Generated(text) => Success(text)
    case ConnectionFailed(detail) => Success("Error: Failed to connect to the Ollama API: " + detail)
    case NotJson(body) => Success("Error: Could not decode JSON response: " + body)
    case NoResponseField => Failure(GenerationFailed)
  }

  /** The web-search context: empty unless search is enabled, and then the formatted results of a search on the stripped prompt. */
  function WebContext(request: AnswerRequest, search: string -> SearchOutcome): (context: string)
    ensures !request.webSearchEnabled ==> context == ""
    ensures request.webSearchEnabled ==> context == SearchContext(search(WebSearchQuery(request.prompt)))
  {
    if request.webSearchEnabled then SearchContext(search(WebSearchQuery(request.prompt))) else ""
  }

  /** The (model, prompt) pair the flow sends for generation, once the prompt is embedded. */
  function GenerationCall(wording: Wording, request: AnswerRequest, filenameToModel: map<string, string>, embedding: Embedding, services: AnswerServices)
    : (call: Result<(string, string), AnswerError>)
    ensures call.Failure? <==> QueriesStore(request) && services.query(embedding, request.filename).QueryFailed?
    ensures call.Failure? ==> call.error == VectorQueryFailed
    ensures call.Success? ==> call.value.0 == ResolveModel(request.model, request.filename, filenameToModel)
  {
    match DocumentContext(request, embedding, services.query)
    case Failure(e) => Failure(e)
    case Success(documentContext) =>
      var model := ResolveModel(request.model, request.filename, filenameToModel);
      var context := FinalContext(documentContext, WebContext(request, services.search));
      Success((model, FinalPrompt(wording, HistoryText(request.history), context, model, request.prompt)))
  }

  /** `generate_response`: the generated text, or the error that makes the endpoint answer 500. */
  function Respond(wording: Wording, request: AnswerRequest, filenameToModel: map<string, string>, services: AnswerServices): (r: Result<string, AnswerError>)
    ensures services.embed(request.prompt).None? ==> r == Failure(PromptEmbeddingFailed)
    ensures (services.embed(request.prompt).Some? && QueriesStore(request)
             && services.query(services.embed(request.prompt).value, request.filename).QueryFailed?)
            ==> r == Failure(VectorQueryFailed)
  {
    match services.embed(request.prompt)
    case None => Failure(PromptEmbeddingFailed)
    case Some(embedding) =>
      match GenerationCall(wording, request, filenameToModel, embedding, services)
      case Failure(e) => Failure(e)
      case Success(call) => OllamaReply(services.generate(call.0, call.1))
  }

  /**
    Once the prompt is embedded, the flow fails exactly when the vector
    query raises (when the store is consulted) or the generation reply has
    no `response` field.
   */
  lemma EmbeddedRespondFails(wording: Wording, request: AnswerRequest, filenameToModel: map<string, string>, services: AnswerServices, embedding: Embedding)
    requires services.embed(request.prompt) == Some(embedding)
    ensures var call := GenerationCall(wording, request, filenameToModel, embedding, services);
            Respond(wording, request, filenameToModel, services).Failure? <==>
              || (QueriesStore(request) && services.query(embedding, request.filename).QueryFailed?)
              || (call.Success? && services.generate(call.value.0, call.value.1) == NoResponseField)
  {
    var call := GenerationCall(wording, request, filenameToModel, embedding, services);
    assert Respond(wording, request, filenameToModel, services) == if call.Failure? then Failure(call.error) else OllamaReply(services.generate(call.value.0, call.value.1));
  }

  /**
    Only three things make the flow fail: the prompt embedding, a raising
    vector query (when the store is consulted), and a generation reply
    without a `response` field. Search and history failures never do.
   */
  lemma RespondFailsOnlyOnFatalSteps(wording: Wording, request: AnswerRequest, filenameToModel: map<string, string>, services: AnswerServices)
    ensures Respond(wording, request, filenameToModel, services).Failure? <==>
      || services.embed(request.prompt).None?
      || (QueriesStore(request) && services.query(services.embed(request.prompt).value, request.filename).QueryFailed?)
      || (var call := GenerationCall(wording, request, filenameToModel, services.embed(request.prompt).value, services);
          call.Success? && services.generate(call.value.0, call.value.1) == NoResponseField)
  {
    if services.embed(request.prompt).Some? {
      EmbeddedRespondFails(wording, request, filenameToModel, services, services.embed(request.prompt).value);
    }
  }

  /**
    With no file uploaded the document context is empty whatever the
    filename, and the prompt carries it as such.
   */
  lemma NoUploadNoDocuments(wording: Wording, request: AnswerRequest, filenameToModel: map<string, string>, embedding: Embedding, services: AnswerServices)
    requires !request.fileUploaded
    ensures var model := ResolveModel(request.model, request.filename, filenameToModel);
            GenerationCall(wording, request, filenameToModel, embedding, services)
            == Success((model, FinalPrompt(wording, HistoryText(request.history), FinalContext("", WebContext(request, services.search)), model, request.prompt)))
  {
  }

  /**
    A failing web search degrades to the error text inside the prompt;
    the request still reaches the generation call.
   */
  lemma SearchFailureDegrades(wording: Wording, request: AnswerRequest, filenameToModel: map<string, string>, embedding: Embedding, services: AnswerServices, detail: string)
    requires request.webSearchEnabled
    requires services.search(WebSearchQuery(request.prompt)) == SearchFailed(detail)
    requires DocumentContext(request, embedding, services.query).Success?
    ensures var call := GenerationCall(wording, request, filenameToModel, embedding, services);
            && call.Success?
            && Occurs(SearchErrorPrefix + detail, call.value.1,
                      |wording.instructions| + |HistoryText(request.history)| + |wording.contextHeading|
                      + |DocumentHeading| + |DocumentContext(request, embedding, services.query).value| + |WebHeading|)
  {
    WebContextInCall(wording, request, filenameToModel, embedding, services);
    assert WebContext(request, services.search) == SearchErrorPrefix + detail;
  }

  /** The web context the generation call carries stands right after the document context and its heading. */
  lemma WebContextInCall(wording: Wording, request: AnswerRequest, filenameToModel: map<string, string>, embedding: Embedding, services: AnswerServices)
    requires DocumentContext(request, embedding, services.query).Success?
    ensures var call := GenerationCall(wording, request, filenameToModel, embedding, services);
            && call.Success?
            && Occurs(WebContext(request, services.search), call.value.1,
                      |wording.instructions| + |HistoryText(request.history)| + |wording.contextHeading|
                      + |DocumentHeading| + |DocumentContext(request, embedding, services.query).value| + |WebHeading|)
  {
    var model := ResolveModel(request.model, request.filename, filenameToModel);
    var history := HistoryText(request.history);
    var documentContext := DocumentContext(request, embedding, services.query).value;
    var webContext := WebContext(request, services.search);
    GenerationCallPrompt(wording, request, filenameToModel, embedding, services);
    WebResultsInPrompt(wording, history, documentContext, webContext, model, request.prompt);
  }

  /** Once the document context is retrieved, the generation call carries the resolved model and the assembled prompt. */
  lemma GenerationCallPrompt(wording: Wording, request: AnswerRequest, filenameToModel: map<string, string>, embedding: Embedding, services: AnswerServices)
    requires DocumentContext(request, embedding, services.query).Success?
    ensures var call := GenerationCall(wording, request, filenameToModel, embedding, services);
            var model := ResolveModel(request.model, request.filename, filenameToModel);
            && call.Success?
            && call.value.0 == model
            && call.value.1 == FinalPrompt(wording, HistoryText(request.history),
                                           FinalContext(DocumentContext(request, embedding, services.query).value, WebContext(request, services.search)),
                                           model, request.prompt)
  {
  }

  /**
    Once the prompt is embedded and the document context retrieved, the
    answer is the generation reply for the resolved model and the
    assembled prompt.
   */
  lemma RespondGenerates(wording: Wording, request: AnswerRequest, filenameToModel: map<string, string>, services: AnswerServices)
    requires services.embed(request.prompt).Some?
    requires DocumentContext(request, services.embed(request.prompt).value, services.query).Success?
    ensures var model := ResolveModel(request.model, request.filename, filenameToModel);
            var documentContext := DocumentContext(request, services.embed(request.prompt).value, services.query).value;
            Respond(wording, request, filenameToModel, services)
            == OllamaReply(services.generate(model, FinalPrompt(wording, HistoryText(request.history),
                                                                FinalContext(documentContext, WebContext(request, services.search)),
                                                                model, request.prompt)))
  {
    GenerationCallPrompt(wording, request, filenameToModel, services.embed(request.prompt).value, services);
  }

  /** The two promises of the endpoint together: when it fails, and what it answers once the context is assembled. */
  lemma RespondOutcome(wording: Wording, request: AnswerRequest, filenameToModel: map<string, string>, services: AnswerServices)
    ensures Respond(wording, request, filenameToModel, services).Failure? <==>
      || services.embed(request.prompt).None?
      || (QueriesStore(request) && services.query(services.embed(request.prompt).value, request.filename).QueryFailed?)
      || (var call := GenerationCall(wording, request, filenameToModel, services.embed(request.prompt).value, services);
          call.Success? && services.generate(call.value.0, call.value.1) == NoResponseField)
    ensures services.embed(request.prompt).Some?
            && DocumentContext(request, services.embed(request.prompt).value, services.query).Success? ==>
              var model := ResolveModel(request.model, request.filename, filenameToModel);
              var documentContext := DocumentContext(request, services.embed(request.prompt).value, services.query).value;
              Respond(wording, request, filenameToModel, services)
              == OllamaReply(services.generate(model, FinalPrompt(wording, HistoryText(request.history),
                                                                  FinalContext(documentContext, WebContext(request, services.search)),
                                                                  model, request.prompt)))
  {
    RespondFailsOnlyOnFatalSteps(wording, request, filenameToModel, services);
    if services.embed(request.prompt).Some? && DocumentContext(request, services.embed(request.prompt).value, services.query).Success? {
      RespondGenerates(wording, request, filenameToModel, services);
    }
  }
}
