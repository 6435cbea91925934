# Document-lifecycle manifest of the incredoc RAG servers, in Dafny

This project models the core of the incredoc retrieval-augmented-generation
servers: the **manifest** that tracks every PDF from intake to
vectorization, the two request handlers that move records through it, the
query shaping of the doc-chat server, and the routing decision of the host's
reverse proxy.

- `manifest.dfy` (module `ManifestStore`): a manifest record
  `{uuid, last_updated, vectorized, no_of_chunks}` with every field optional,
  as JSON read back from disk may lack any of them. The manifest is a JSON
  object: an insertion-ordered key sequence plus a `map`. `ManifestFile` is
  `manifest.json`. Its `contents` is `None` while the file is missing or
  unparseable, and a ghost counter records each write.
- `intake.dfy` (module `DocIntake`): the intake scan. `Scan` is the loop as
  a function. `IntakeDocuments` is the handler as a method with a `while`
  loop, proved equal to `Scan`. It writes the manifest exactly once.
- `vectorizer.dfy` (module `Vectorizer`): the vectorize batch.
  - `WorkSet` is the `files_to_process` comprehension.
  - `Run` is the per-file loop as a function.
  - `ProcessWorkSet` and `BuildRecords` are the loops as methods.
  - `VectorizeDocuments` is the handler.
  - `VectorIndex` is the Pinecone index, a map from vector id to metadata.
- `doc_chat.dfy` (module `DocChat`): question validation, `search_kwargs`,
  the answer default, and source de-duplication, all as functions.
- `host.dfy` (module `Host`): the service registry, the destination URL,
  request and response header filtering, and status mapping, all as functions.
- `wrappers.dfy`, `seqs.dfy`, `text.dfy`: `Option`/`Result`, a raised
  exception (type name and message) and the `details` text reported for it, order-preserving
  filtering, `str.lower()`, `str.endswith()`, and the decimal rendering of an
  integer inside an f-string.

Collaborators the model cannot see are parameters:
- `os.listdir` and `os.path.isfile` are a listing of `Entry` values.
- `uuid.uuid4()` and `datetime.utcnow()` are a sequence of `Minted` values, one per listed entry.
- `os.path.exists` and the PDF loader, splitter and embedder are the `Services` record.
- The failure of `index.upsert` is the index's `refuse` function.
- The retrieval-QA chain is the `ask` function.
- The downstream HTTP call is the `send` function.

Two consequences of the code's own behaviour are kept:
- A PDF that splits into no chunks is still marked vectorized, with
  `no_of_chunks == 0`; a reported file's chunk count is therefore not
  always positive. The invariant that does hold is proved: a record that
  counts chunks is vectorized (`ChunksImplyVectorized`).
- Chunk ids use the record's `uuid` read with `.get`, so a record without
  one gives ids `None-0`, `None-1`, …. The model keeps that (`DocIdText`).

## Model

| member | source | states |
|---|---|---|
| ManifestStore.ManifestFile.Load | mcp_servers/incredoc_resource_doc_intake/server.py:33-37 | loading yields the file's parsed manifest, or None when it is missing or unparseable |
| ManifestStore.ManifestFile.Save | mcp_servers/incredoc_resource_doc_intake/server.py:60-61 | a save replaces the whole file with the given manifest and counts one write |
| ManifestStore.Put | mcp_servers/incredoc_resource_doc_intake/server.py:50-55 | dict assignment keeps the manifest well formed; a new key goes to the end of the key order and an existing key keeps its place |
| DocIntake.LoadOrEmpty | mcp_servers/incredoc_resource_doc_intake/server.py:33-37 | a missing or unparseable manifest starts the scan from the empty object instead of failing |
| DocIntake.Eligible | mcp_servers/incredoc_resource_doc_intake/server.py:46 | an entry is scanned when it is a regular file whose lower-cased name ends in `.pdf`; properties in DocIntake.PdfExtensionExamples and DocIntake.ScanIgnoresIneligible |
| DocIntake.NewRecord | mcp_servers/incredoc_resource_doc_intake/server.py:50-55 | the record of a newly seen file: minted uuid, timestamp with `Z`, not vectorized, zero chunks; stated by DocIntake.ScanNewRecord |
| DocIntake.Scan | mcp_servers/incredoc_resource_doc_intake/server.py:42-58 | the scan loop over the listing as a function; its result manifest is well formed, and its properties are the Scan* lemmas below |
| DocIntake.IntakeDocuments | mcp_servers/incredoc_resource_doc_intake/server.py:26-69 | the handler's loop yields exactly the manifest, processed and skipped lists of Scan over the loaded-or-empty manifest, and the file is written exactly once, after the loop |
| DocIntake.PdfExtensionExamples | mcp_servers/incredoc_resource_doc_intake/server.py:46 | the extension test ignores letter case and looks only at the end of the name (`REPORT.PDF` and `Scan.Pdf` count; `report.pdf.bak` and `pdf` do not) |
| DocIntake.ScanPartition | mcp_servers/incredoc_resource_doc_intake/server.py:42-58 | processed is exactly the eligible names the manifest lacked and skipped exactly those it held, each in listing order |
| DocIntake.ScanDisjoint | mcp_servers/incredoc_resource_doc_intake/server.py:42-58 | no name is both processed and skipped, and a name is reported exactly when it is a regular file with a PDF extension |
| DocIntake.ScanIgnoresIneligible | mcp_servers/incredoc_resource_doc_intake/server.py:46 | an entry that is not a regular PDF file is in neither list, and the manifest neither gains nor changes a record under its name |
| DocIntake.ScanNewRecord | mcp_servers/incredoc_resource_doc_intake/server.py:47-56 | a new eligible name gets the record minted for it: its fresh uuid and timestamp, vectorized false, zero chunks |
| DocIntake.ScanKeepsKnown | mcp_servers/incredoc_resource_doc_intake/server.py:57-58 | every record already in the manifest, uuid included, comes out exactly as it went in |
| DocIntake.ScanKeys | mcp_servers/incredoc_resource_doc_intake/server.py:47-56 | the new key order is the old one followed by the processed names; nothing is removed or reordered |
| DocIntake.ScanCovers | mcp_servers/incredoc_resource_doc_intake/server.py:42-58 | after a scan every eligible listed name is in the manifest |
| DocIntake.ScanAllKnown | mcp_servers/incredoc_resource_doc_intake/server.py:47-58 | when the manifest already holds every eligible name, the scan processes nothing, skips them all and leaves the manifest unchanged |
| DocIntake.ScanIdempotent | mcp_servers/incredoc_resource_doc_intake/server.py:47-61 | a second scan of the same listing over the saved manifest processes nothing and changes nothing, whatever ids are minted |
| DocIntake.ScanKeepsIdsUnique | mcp_servers/incredoc_resource_doc_intake/server.py:50-51 | with freshly minted uuids, document ids stay unique across the manifest |
| DocIntake.ScanKeepsLifecycle | mcp_servers/incredoc_resource_doc_intake/server.py:50-55 | a scan keeps the invariant that a record counting chunks is vectorized |
| Vectorizer.WorkSet | mcp_servers/incredoc_tool_vectorizer/server.py:46-48 | `files_to_process` as a function; characterised by Vectorizer.WorkSetMembership |
| Vectorizer.WorkSetMembership | mcp_servers/incredoc_tool_vectorizer/server.py:46-48 | the work set is exactly the keys whose `vectorized` is missing or false, without duplicates, in manifest order |
| Vectorizer.BuildRecords | mcp_servers/incredoc_tool_vectorizer/server.py:69-78 | the appending loop builds exactly one record per chunk, in chunk order |
| Vectorizer.Batch | mcp_servers/incredoc_tool_vectorizer/server.py:69-78 | the upsert tuples of one file, one per chunk; characterised by Vectorizer.BatchShape |
| Vectorizer.VectorId | mcp_servers/incredoc_tool_vectorizer/server.py:77 | the id `{doc_id}-{i}`, with a missing uuid rendered `None`; shown injective by Vectorizer.VectorIdInjective |
| Vectorizer.BatchShape | mcp_servers/incredoc_tool_vectorizer/server.py:66-78 | a file with n chunks gives n records; record i has id `{uuid}-{i}`, source the filename, doc_id the uuid and text chunk i; the ids are pairwise distinct |
| Text.NatToStringRoundTrip | mcp_servers/incredoc_tool_vectorizer/server.py:77 | the decimal rendering of the chunk ordinal is a non-empty digit string that reads back as the ordinal |
| Text.NatToStringInjective | mcp_servers/incredoc_tool_vectorizer/server.py:77 | distinct ordinals render as distinct strings |
| Vectorizer.VectorIdInjective | mcp_servers/incredoc_tool_vectorizer/server.py:77 | two vector ids are equal exactly when their document ids and ordinals are, even when uuids contain dashes |
| Vectorizer.Store | mcp_servers/incredoc_tool_vectorizer/server.py:81 | an upsert writes each record under its id, later records overwriting earlier ones; stated by Vectorizer.StoreHits and Vectorizer.StoreMisses |
| Vectorizer.StoreAll | mcp_servers/incredoc_tool_vectorizer/server.py:81 | the index after the loop's upserts in order; an id holds the record of its last writer (Vectorizer.StoreAllLastWriter) |
| Vectorizer.StoreHits | mcp_servers/incredoc_tool_vectorizer/server.py:81 | a record of a batch with distinct ids is in the index under its id after the upsert |
| Vectorizer.StoreMisses | mcp_servers/incredoc_tool_vectorizer/server.py:81 | an upsert leaves every id outside its batch as it was |
| Vectorizer.StoreAllLastWriter | mcp_servers/incredoc_tool_vectorizer/server.py:51-81 | after several upserts an id holds the record of the last batch that wrote it |
| Vectorizer.VectorIndex.Upsert | mcp_servers/incredoc_tool_vectorizer/server.py:81 | an accepted batch overwrites each of its ids; a refused batch raises and changes nothing |
| Vectorizer.ProcessWorkSet | mcp_servers/incredoc_tool_vectorizer/server.py:51-90 | the loop skips missing files, upserts one batch per processed file, marks it, and stops at the first failure, with the results Run gives |
| Vectorizer.VectorizeDocuments | mcp_servers/incredoc_tool_vectorizer/server.py:35-99 | the handler's reply, the index after its upserts, and the manifest file: rewritten exactly once on completion, left untouched on any error |
| Vectorizer.Run | mcp_servers/incredoc_tool_vectorizer/server.py:51-90 | the per-file loop as a function: its in-memory manifest stays well formed; its properties are the Run* lemmas below |
| Vectorizer.Vectorize | mcp_servers/incredoc_tool_vectorizer/server.py:35-99 | the handler as a function of its collaborators; its properties are the Vectorize* lemmas below |
| Vectorizer.RunReportsWork | mcp_servers/incredoc_tool_vectorizer/server.py:51-90 | every reported file is in the work set; a failure names a work-set file that exists on disk |
| Vectorizer.RunCompletedReportsExisting | mcp_servers/incredoc_tool_vectorizer/server.py:51-86 | a loop that completes reports exactly the work-set files that exist on disk, in work-set order; missing files are skipped |
| Vectorizer.RunRecords | mcp_servers/incredoc_tool_vectorizer/server.py:84-86 | each reported file gets vectorized true and its chunk count, with its other fields unchanged; every other record and the key order stay unchanged |
| Vectorizer.RunUpserts | mcp_servers/incredoc_tool_vectorizer/server.py:57-81 | the i-th upserted batch is the chunk batch of the i-th reported file under its uuid; batches upserted before a failure remain upserted |
| Vectorizer.RunFailure | mcp_servers/incredoc_tool_vectorizer/server.py:51-90 | a failing loop stops at the first existing work-set file whose split or upsert raised: the files reported before it are exactly the existing work-set files that precede it, and the failure's details are `An error of type <T> occurred: <message>` for that exception |
| Wrappers.DetailsInjective | mcp_servers/incredoc_tool_vectorizer/server.py:88 | the reported details text determines the exception's type name and message, type names having no spaces |
| Vectorizer.VectorizeReplies | mcp_servers/incredoc_tool_vectorizer/server.py:36-99 | uninitialised services give 500 and a missing manifest 400, each with its error message and nothing saved or upserted; a failed file gives 500 and no save; completion gives 200 and saves; total_processed is the number of reported files, which are the existing work-set files in order, each upserted once with its own batch |
| Vectorizer.VectorizeFailure | mcp_servers/incredoc_tool_vectorizer/server.py:51-90 | a failed call answers 500 "Failed on file <f>" for the first existing work-set file whose split or upsert raised, with details `An error of type <T> occurred: <message>` for that exception; the batches already upserted are exactly those of the existing files before it; nothing is saved |
| Vectorizer.VectorizeSavedRecords | mcp_servers/incredoc_tool_vectorizer/server.py:84-93 | the saved manifest has the same keys in the same order; reported files are marked vectorized with their chunk counts and uuid kept; every other record is unchanged |
| Vectorizer.VectorizeResumes | mcp_servers/incredoc_tool_vectorizer/server.py:46-93 | after a completed call the next work set is exactly the old work set's files that were missing on disk |
| Vectorizer.VectorizeKeepsInvariants | mcp_servers/incredoc_tool_vectorizer/server.py:84-85 | a completed call keeps the lifecycle invariant and the uniqueness of document ids |
| Vectorizer.VectorizeIndexHolds | mcp_servers/incredoc_tool_vectorizer/server.py:66-81 | after a completed call with unique uuids, the index holds chunk i of every reported file under `{uuid}-{i}` with that file as source; no later batch overwrote it |
| DocChat.SearchKwargsFor | mcp_servers/incredoc_prompt_doc_chat/server.py:45-52 | retrieval always uses k = 5; a source filter is added exactly when the filename is present and non-empty, and it is on that filename |
| DocChat.Dedup | mcp_servers/incredoc_prompt_doc_chat/server.py:68 | the result has no duplicates and holds exactly the elements of its input |
| DocChat.Sources | mcp_servers/incredoc_prompt_doc_chat/server.py:68 | the sources have no duplicates; each is the source of some retrieved document, or "unknown" when it has none |
| DocChat.Chat | mcp_servers/incredoc_prompt_doc_chat/server.py:31-79 | the handler as a function of the parsed body and the retrieval chain; its properties are the Chat* lemmas below |
| DocChat.ChatGuards | mcp_servers/incredoc_prompt_doc_chat/server.py:32-42 | uninitialised services give 500, an unreadable body gives the internal-error 500 with details `An error of type <T> occurred: <message>`, and a missing or empty question gives 400, each with its error message and none consulting the retrieval chain |
| DocChat.ChatAsksOnce | mcp_servers/incredoc_prompt_doc_chat/server.py:44-65 | a valid question goes to the chain with k = 5 and the filename filter, and the reply depends on nothing else the chain does |
| DocChat.ChatAnswers | mcp_servers/incredoc_prompt_doc_chat/server.py:65-79 | a chain exception becomes 500 with details `An error of type <T> occurred: <message>`; a missing result becomes "No answer could be generated."; the sources are de-duplicated |
| DocChat.ChatScoped | mcp_servers/incredoc_prompt_doc_chat/server.py:47-68 | if the index honours the filter, every source of a scoped query is the requested filename |
| Host.Proxy | mcp_host/host.py:15-56 | the proxy handler as a function of the downstream call; stated by Host.ProxyUnknownService and Host.ProxyRoutes |
| Host.DestinationUrl | mcp_host/host.py:24 | the downstream URL; stated by Host.RegistryUrls |
| Host.IncomingHeaders | mcp_host/host.py:33 | request header names reach the handler title-cased, as Werkzeug rebuilds them from the WSGI environment |
| Host.ForwardedHeaders | mcp_host/host.py:33 | the request headers sent downstream; stated by Host.ForwardedHeadersSpec |
| Host.ReturnedHeaders | mcp_host/host.py:43-45 | the response headers sent back; stated by Host.ReturnedHeadersSpec |
| Text.TitleCaseIgnoresCase | mcp_host/host.py:33 | title-casing a header name depends only on its lower-cased form |
| Text.TitleCaseHost | mcp_host/host.py:33 | a name title-cases to `Host` exactly when it is some spelling of `host` |
| Host.ProxyUnknownService | mcp_host/host.py:22-56 | a service other than resource, tool and prompt gets 404 "Service not found", with no downstream request |
| Host.ProxyRoutes | mcp_host/host.py:22-52 | a routed request goes to the registry URL followed by `/service/path`; a connection error gives 502 "Downstream service connection error"; otherwise the status and body pass through unchanged |
| Host.RegistryUrls | mcp_host/host.py:8-24 | resource, tool and prompt route to localhost ports 6001, 6002 and 6003 |
| Host.ForwardedHeadersSpec | mcp_host/host.py:33 | a request header is forwarded, under its title-cased name, exactly when that name is not `Host`, in the original order; no spelling of `host` is ever forwarded |
| Host.ReturnedHeadersSpec | mcp_host/host.py:43-45 | a response header is returned exactly when its lower-cased name is not one of the four excluded names, in the original order; filtering is idempotent |
| Host.HeaderCaseExamples | mcp_host/host.py:43-45 | `Content-Length` and `Transfer-Encoding` are dropped from responses and `Content-Type` is kept |
| Host.RequestHeaderExamples | mcp_host/host.py:33 | a client's `host` or `HOST` is dropped like `Host`, and `x-trace` is forwarded as `X-Trace` |

## Left out

- Flask routing, JSON parsing, response serialisation and file I/O are not
  modelled. Loading is an `Option<Manifest>` and saving replaces the file's
  contents. A manifest file that parses as JSON but is not an object whose
  values are objects is not modelled. The two handlers treat such a file
  differently:
  - The vectorizer raises outside its `try` at
    `mcp_servers/incredoc_tool_vectorizer/server.py:46-47`, in `manifest.items()`
    or `data.get`.
  - The intake handler never reads a record. It only tests `filename not in
    manifest` and assigns new names, so it writes such a value back unchanged.
    The one exception is when it must assign a new name into a value that is
    not an object, or test `in` against a number, `null` or a boolean; then
    it raises. For a JSON string, `in` is a substring test.
- The `lastUpdated` value is the minted timestamp followed by `Z`. The clock
  and `uuid.uuid4()` are supplied as values, not modelled.
- `get_file_checksum` is unused by the handlers and is not modelled.
- The PDF loader, the text splitter (chunk size 1000, overlap 100), and the
  Ollama embedder are one `split` oracle returning chunk texts or an
  exception. Embedding vectors are floating point and are not carried in
  `VectorRecord`.
- A refused upsert is modelled as writing nothing. The real service might
  have written part of the batch.
- Python truthiness of `vectorized`, `question` and `filename` is modelled
  for booleans and strings only. Other JSON values in those fields are not
  modelled.
- `str.lower()` and `str.title()` are modelled for ASCII letters only. Full Unicode case mapping is not modelled.
- DocChat.Sources: the source builds a Python `set` and lists it, so its
  order is unspecified. The model lists first occurrences in retrieval order
  and claims only set equality and the absence of duplicates.
- The Ollama LLM, Pinecone retrieval and RetrievalQA are one `ask` oracle.
  The concatenation of context and the answer synthesis are not modelled.
- The host's streaming (`iter_content`), cookies, timeout and redirect
  settings are not modelled. Exceptions other than
  `requests.exceptions.RequestException` escape the handler and are not modelled.
- Host.ForwardedHeadersSpec: the source builds a dict from the incoming
  headers. The model keeps a list, which is the same because WSGI header
  names are unique. Incoming names containing `_`, which WSGI servers
  cannot tell apart from `-`, are not modelled.
- Concurrency is not modelled. The source has no locking, so concurrent
  scan and vectorize calls can lose updates to the manifest.
- The Gradio client, including its "All Documents" choice that omits the
  filename, is not part of this model.
