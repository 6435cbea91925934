/** The doc-chat server: validates a question, scopes retrieval to one
    source file when a filename is given, and answers with the de-duplicated
    sources of the retrieved chunks. */
module DocChat {
  import opened Wrappers
  import opened Seqs

  /** The fields of the JSON body the handler reads. */
  datatype ChatRequest = ChatRequest(question: Option<string>, filename: Option<string>)

  /** The retriever's `search_kwargs`: `k`, and the `source` value of the
      `{"source": {"$eq": ...}}` filter when there is one. */
  datatype SearchKwargs = SearchKwargs(k: nat, sourceFilter: Option<string>)

  /** A retrieved chunk's metadata: its `source` entry, if present. */
  datatype SourceDocument = SourceDocument(source: Option<string>)

  /** What `qa_chain.invoke` returns: the `result` entry, if present, and the
      source documents. */
  datatype QaResult = QaResult(result: Option<string>, sourceDocuments: seq<SourceDocument>)

  datatype ChatResponse =
    | NotInitialized
    | MissingQuestion
    | Answered(answer: string, sources: seq<string>)
    | InternalError(details: string)
  {
    function Status(): int
    {
      match this
      case NotInitialized => 500
      case MissingQuestion => 400
      case Answered(_, _) => 200
      case InternalError(_) => 500
    }

    function Error(): string
    {
      match this
      case NotInitialized => "A service is not initialized."
      case MissingQuestion => "A 'question' must be provided."
      case Answered(_, _) => ""
      case InternalError(_) => "An internal error occurred."
    }
  }

  const TopK: nat := 5
  const NoAnswer := "No answer could be generated."
  const UnknownSource := "unknown"

  /** Python truthiness of an optional string: present and non-empty. */
  predicate Truthy(s: Option<string>)
  {
    s.Some? && s.value != ""
  }

  /** `search_kwargs`: always `k = 5`; a source filter exactly when the
      filename is truthy, and then on that filename. */
  function SearchKwargsFor(filename: Option<string>): (kw: SearchKwargs)
    ensures kw.k == 5
    ensures kw.sourceFilter.Some? <==> Truthy(filename)
    ensures kw.sourceFilter.Some? ==> kw.sourceFilter == filename
  {
    SearchKwargs(TopK, if Truthy(filename) then filename else None)
  }

  /** `doc.metadata.get("source", "unknown")`. */
  function SourceOf(d: SourceDocument): string
  {
    if d.source.Some? then d.source.value else UnknownSource
  }

  /** Drops repeated elements, keeping first occurrences: a duplicate-free
      sequence holding exactly the elements of `s`. */
  function Dedup(s: seq<string>): (r: seq<string>)
    ensures Distinct(r)
    ensures forall x :: x in r <==> x in s
    decreases |s|
  {
    if s == [] then []
    else
      var r := Dedup(s[..|s| - 1]);
      if s[|s| - 1] in r then r else r + [s[|s| - 1]]
  }

  /** `list({doc.metadata.get("source", "unknown") for doc in ...})`. */
  function Sources(docs: seq<SourceDocument>): (sources: seq<string>)
    ensures Distinct(sources)
    ensures forall x :: x in sources <==> exists i :: 0 <= i < |docs| && SourceOf(docs[i]) == x
  {
    var all := seq(|docs|, i requires 0 <= i < |docs| => SourceOf(docs[i]));
    assert forall x :: x in all <==> exists i :: 0 <= i < |docs| && SourceOf(docs[i]) == x by {
      forall x ensures x in all <==> exists i :: 0 <= i < |docs| && SourceOf(docs[i]) == x {
        if exists i :: 0 <= i < |docs| && SourceOf(docs[i]) == x {
          var i :| 0 <= i < |docs| && SourceOf(docs[i]) == x;
          assert all[i] == x;
        }
      }
    }
    Dedup(all)
  }

  /** The chat handler. `body` is the parsed JSON object, or the exception
      raised while reading it; `ask` is the retrieval-QA chain given the
      question and the search kwargs, returning its result or the exception
      it raised. */
  function Chat(initialized: bool, body: Result<ChatRequest>,
                ask: (string, SearchKwargs) -> Result<QaResult>): ChatResponse
  {
    if !initialized then NotInitialized
    else if body.Failure? then InternalError(Details(body.error))
    else if !Truthy(body.value.question) then MissingQuestion
    else match ask(body.value.question.value, SearchKwargsFor(body.value.filename))
      case Failure(e) => InternalError(Details(e))
      case Success(qa) =>
        Answered(if qa.result.Some? then qa.result.value else NoAnswer, Sources(qa.sourceDocuments))
  }

  /** Uninitialised services give 500, a body that cannot be read gives the
      internal-error 500 with the exception's details, and a missing or
      empty question gives 400; none of them consults the retrieval chain. */
  lemma ChatGuards(initialized: bool, body: Result<ChatRequest>,
                   ask1: (string, SearchKwargs) -> Result<QaResult>, ask2: (string, SearchKwargs) -> Result<QaResult>)
    ensures !initialized ==>
      Chat(initialized, body, ask1).Status() == 500 &&
      Chat(initialized, body, ask1).Error() == "A service is not initialized."
    ensures initialized && body.Failure? ==>
      Chat(initialized, body, ask1) == InternalError(Details(body.error)) &&
      Chat(initialized, body, ask1).Status() == 500 &&
      Chat(initialized, body, ask1).Error() == "An internal error occurred."
    ensures initialized && body.Success? && !Truthy(body.value.question) ==>
      Chat(initialized, body, ask1).Status() == 400 &&
      Chat(initialized, body, ask1).Error() == "A 'question' must be provided."
    ensures !initialized || body.Failure? || !Truthy(body.value.question) ==>
      Chat(initialized, body, ask1) == Chat(initialized, body, ask2)
  {
  }

  /** A valid question is put to the chain once, with `k = 5` and the
      filter derived from the filename; the reply depends on nothing else. */
  lemma ChatAsksOnce(body: ChatRequest, ask1: (string, SearchKwargs) -> Result<QaResult>,
                     ask2: (string, SearchKwargs) -> Result<QaResult>)
    requires Truthy(body.question)
    requires ask1(body.question.value, SearchKwargsFor(body.filename)) == ask2(body.question.value, SearchKwargsFor(body.filename))
    ensures Chat(true, Success(body), ask1) == Chat(true, Success(body), ask2)
    ensures SearchKwargsFor(body.filename).k == 5
  {
  }

  /** A chain failure becomes a 500 carrying its details; a missing `result`
      becomes the stock answer; the sources are duplicate-free and each is
      the source (or "unknown") of some retrieved document. */
  lemma ChatAnswers(body: ChatRequest, ask: (string, SearchKwargs) -> Result<QaResult>)
    requires Truthy(body.question)
    ensures var out := ask(body.question.value, SearchKwargsFor(body.filename));
      var resp := Chat(true, Success(body), ask);
      && (out.Failure? ==>
            resp == InternalError(Details(out.error)) && resp.Status() == 500 && resp.Error() == "An internal error occurred.")
      && (out.Success? ==>
            && resp.Status() == 200
            && resp.answer == (if out.value.result.Some? then out.value.result.value else "No answer could be generated.")
            && Distinct(resp.sources)
            && forall x :: x in resp.sources <==>
                 exists i :: 0 <= i < |out.value.sourceDocuments| && SourceOf(out.value.sourceDocuments[i]) == x)
  {
  }

  /** Scoped retrieval: when a filename is given and the index honours the
      filter, every reported source is that filename. */
  lemma ChatScoped(body: ChatRequest, ask: (string, SearchKwargs) -> Result<QaResult>)
    requires Truthy(body.question) && Truthy(body.filename)
    requires var out := ask(body.question.value, SearchKwargsFor(body.filename));
      out.Success? ==> forall i :: 0 <= i < |out.value.sourceDocuments| ==>
        out.value.sourceDocuments[i].source == SearchKwargsFor(body.filename).sourceFilter
    ensures var resp := Chat(true, Success(body), ask);
      resp.Answered? ==> forall x :: x in resp.sources ==> x == body.filename.value
  {
  }
}
