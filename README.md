# Retrieval-augmented chat backend, in Dafny

This project models the bookkeeping at the heart of a small retrieval-augmented chat backend. Users upload PDF, PowerPoint or image files. The backend extracts their text and cuts it into overlapping word windows ("chunks"). It embeds each chunk and stores it in a vector collection under the ID `<filename>_<i>`, and it remembers which generation model each file was uploaded with. A question is answered by embedding it, optionally running a web search, and retrieving chunks of the named file. A fixed-form prompt carrying the history, the context and the question is then sent to the generation model. A separate endpoint clears the collection and the model map.

The project is organised by the program's structure:

- `text.dfy` (module `Text`): the Python string operations the backend relies on, over `seq<char>`. These are `isspace`, `split()`, `sep.join`, `strip()`, ASCII `lower()`/`upper()`, `str(n)` for `n >= 0`, and `s.split(sep)[-1]`.
- `chunker.dfy` (module `Chunker`): the word-window splitter. It is a `while` loop proved against a specification function. Lemmas cover the chunk count, the shape of each chunk, coverage of every word, and the split/join round trip.
- `file_processor.dfy` (module `FileProcessor`): the extension dispatch of the upload path, and the per-format text assembly. The PDF and slide loops are methods. The parsing libraries' output is an input.
- `store.dfy` (module `Store`): the vector collection as a map from ID to (embedding, text, filename metadata). It has the four operations the backend relies on: delete by IDs, add, delete where the filename is not "null", and the filename filter a query applies.
- `answer.dfy` (module `Answer`): the answer flow as pure assembly. This covers model resolution, document context, web-search context, history transcript, prompt layout, and which failures are fatal. The embedding, search, vector query and generation calls are function-valued inputs.
- `backend.dfy` (module `Backend`): the shared state (collection and model map) and the ingest and reset transitions as functions, with their lemmas. The class `RagServer` holds the state in fields. Its methods `IngestFile`, `ProcessFiles` and `ClearContext` update the fields in place and are proved equal to those functions. `GenerateResponse` only reads the model map and the prompt wording, and is proved to answer as the answer flow does.

Three behaviours of the code are easy to misread:

- With window 200 and overlap 20, a text of exactly 200 words gives two chunks, not one. The second is words 180..199, because the loop continues while `start < len(words)` and 180 < 200 (`Chunker.TwoHundredWords`).
- An upload with no extracted text raises a 400 inside the handler's `try`. The handler's generic `except` turns it into a 500, and an unsupported extension also becomes a 500. All ingest errors are therefore one failure class (`Backend.IngestError`).
- A failing request is not undone. Files processed before the failing one keep their chunks and their model entry (`Backend.ProcessAppend`). Chunks added before a failing embedding stay stored (`Backend.AddChunks`).

## Model

| member | source | states |
|---|---|---|
| Text.Split | backend/main.py:82 | every element of `text.split()` is a non-empty run without whitespace |
| Text.SplitEmptyIff | backend/main.py:82 | `split()` yields no words exactly when the text is empty or all whitespace |
| Text.SplitJoinRoundTrip | backend/main.py:82-88 | splitting the single-space join of whitespace-free words gives the same words back |
| Text.Strip | backend/file_processor.py:26 | `strip()` leaves no edge whitespace, is empty exactly for all-whitespace input, and removes only whitespace before and after a contiguous middle of the input |
| Text.StripIdempotent | backend/file_processor.py:26 | stripping twice equals stripping once |
| Text.Lower | backend/file_processor.py:18 | lower-casing keeps the length and maps each character through the ASCII lower-case map |
| Text.Upper | backend/main.py:280 | upper-casing a role keeps the length and maps each character through the ASCII upper-case map |
| Text.NatToString | backend/main.py:131 | the decimal form of a chunk index is a non-empty run of digits, one digit exactly for indices below 10 |
| Text.JoinAppend | backend/main.py:248 | joining one more piece appends the separator and that piece to the earlier join |
| Text.NatToStringInjective | backend/main.py:131 | distinct chunk indices print as distinct decimal strings |
| Text.AfterLast | backend/file_processor.py:18 | `s.split(sep)[-1]` is a suffix free of `sep`, preceded by `sep` whenever it is not all of `s` |
| Text.AfterLastOf | backend/file_processor.py:18 | for `stem + sep + tail` with no `sep` in `tail`, the last segment is `tail` |
| Chunker.ChunkText | backend/main.py:76-92 | the loop returns exactly the windows of the specification, ceil(n / (chunk_size - overlap)) of them for n words; it terminates because the step is positive |
| Chunker.WindowsFromLength | backend/main.py:85-90 | the number of windows from a start position is the ceiling of the remaining words over the step |
| Chunker.WindowsFromAt | backend/main.py:85-90 | window i from a start begins at start + i*step, before the last word |
| Chunker.WindowsFrom | backend/main.py:85-90 | no windows exactly when the start is at or past the last word; otherwise the first is the single-space join of the chunk_size words from the start (fewer at the end) |
| Chunker.Chunks | backend/main.py:82-92 | the splitter returns no chunks exactly for empty or all-whitespace text |
| Chunker.ChunkCount | backend/main.py:82-92 | ceil(n / s) chunks for n words and step s |
| Chunker.ChunkAt | backend/main.py:85-90 | chunk i is the single-space join of `words[i*s .. min(i*s + chunk_size, n))` |
| Chunker.WindowRoundTrip | backend/main.py:87-88 | re-splitting a joined window gives the window, of 1 to chunk_size words |
| Chunker.ChunkWords | backend/main.py:82-88 | re-splitting chunk i gives exactly its window of words, 1 to chunk_size of them |
| Chunker.WindowsCoverage | backend/main.py:85-90 | word j lies inside window j / s when s <= chunk_size |
| Chunker.WindowsCover | backend/main.py:85-90 | for any stride s <= chunk_size, word j is word j - i*s of window i = j / s, read back by splitting that window's chunk |
| Chunker.ChunkCoverage | backend/main.py:85-90 | with 0 <= overlap, word j of the text is word j - i*s of chunk i = j / s (s = chunk_size - overlap), so every word appears in some chunk |
| Chunker.TwoHundredWords | backend/main.py:85-90 | 200 words with 200/20 give two chunks: all words, then words 180..199 |
| Chunker.TwoHundredTenWords | backend/main.py:85-90 | 210 words with 200/20 give two chunks: words 0..199, then words 180..209 |
| FileProcessor.UploadPath | backend/file_processor.py:13 | an absolute name is the path itself; any path is non-empty and starts with "u" (of `uploads/`) or "/" |
| FileProcessor.KindOf | backend/file_processor.py:20-53 | an extension selects a branch exactly when it is pdf, pptx, png, jpg or jpeg; any other gets the unsupported-type error |
| FileProcessor.Classify | backend/file_processor.py:18-53 | a branch is taken exactly when the extension of the upload path is one of pdf, pptx, png, jpg, jpeg; otherwise the unsupported-type error |
| FileProcessor.ExtensionIsLastSegment | backend/file_processor.py:13-18 | the extension is the dot-free text after the last "." of the lowercased upload path |
| FileProcessor.LowerTwice | backend/file_processor.py:18 | lower-casing is idempotent |
| FileProcessor.ClassifyIgnoresCase | backend/file_processor.py:18 | a name and its lowercase form select the same branch |
| FileProcessor.NoDotUnsupported | backend/file_processor.py:13-18 | a name without "." is always unsupported |
| FileProcessor.UpperCasePdf | backend/file_processor.py:18-20 | "Report.PDF" is read as a PDF |
| FileProcessor.TextFileUnsupported | backend/file_processor.py:52-53 | "notes.txt" raises the unsupported-type error |
| FileProcessor.PageTexts | backend/file_processor.py:23-25 | page texts in page order, `""` for a page yielding none |
| FileProcessor.PdfExtraction | backend/file_processor.py:22-26 | the PDF result has no edge whitespace, and is empty exactly when the newline-join of the page texts is all whitespace |
| FileProcessor.PdfText | backend/file_processor.py:22-26 | the page loop yields the stripped newline-join of the page texts, with no edge whitespace |
| FileProcessor.JoinAllSpace | backend/file_processor.py:26 | joining all-whitespace pieces with a whitespace separator gives all whitespace |
| FileProcessor.PdfWithoutTextLayer | backend/file_processor.py:24-26 | a PDF whose pages all yield no text extracts to `""` |
| FileProcessor.DeckTextsAppend | backend/file_processor.py:33-40 | the texts of a deck are the texts of its slides concatenated in slide order |
| FileProcessor.DeckTextsSingle | backend/file_processor.py:35-40 | one slide contributes its shape texts in shape order, then its notes |
| FileProcessor.PptxExtraction | backend/file_processor.py:32-41 | the slide-deck result has no edge whitespace, and is empty exactly when the newline-join of the deck texts is all whitespace |
| FileProcessor.PptxText | backend/file_processor.py:32-41 | the nested slide and shape loops yield the stripped newline-join of the deck texts, with no edge whitespace |
| FileProcessor.ImageExtraction | backend/file_processor.py:47-48 | the OCR text is stripped: no edge whitespace, empty exactly when the OCR text is all whitespace |
| FileProcessor.ExtractedText | backend/file_processor.py:18-53 | extraction fails exactly for an unsupported extension, and a returned text has no edge whitespace |
| FileProcessor.ExtractTextFromFile | backend/file_processor.py:7-53 | the extraction method returns the extraction specification's result |
| Store.DeleteIds | backend/main.py:135 | the listed IDs are gone and every other entry is kept unchanged |
| Store.AddIfAbsent | backend/main.py:152-157 | the ID is present afterwards; an existing entry is kept, a new one is stored; nothing else changes |
| Store.DeleteWhereFilenameNotNull | backend/main.py:325 | exactly the entries whose filename metadata is "null" remain, unchanged |
| Store.WithFilename | backend/main.py:258-262 | the IDs a filename-filtered query ranks are exactly the entries carrying that filename |
| Answer.ResolveModel | backend/main.py:224-227 | the recorded model when the filename is non-empty and known, otherwise the request's model |
| Answer.RetrievedContext | backend/main.py:267-272 | the fallback text when documents are missing or empty, else the first list joined by newlines |
| Answer.DocumentContext | backend/main.py:255-272 | empty unless a file was uploaded and a filename given; then the retrieved context, or the fatal error when the query raises |
| Answer.WebSearchQuery | backend/main.py:244 | the search query has no edge whitespace |
| Answer.SearchContext | backend/main.py:242-252 | a failed search yields the prefixed error text; no results yield `""` |
| Answer.SearchContextAppend | backend/main.py:248 | one more result adds a blank line and its "Source:" block after the blocks of the earlier results |
| Answer.SingleSearchResult | backend/main.py:248 | one result is shown as "Source: " link, newline, snippet |
| Answer.HistoryText | backend/main.py:278-283 | an unparsable history yields the placeholder; an empty one yields `""` |
| Answer.HistoryTextAppend | backend/main.py:280 | one more turn adds a newline and its `**ROLE:** text` line after the lines of the earlier turns |
| Answer.SingleTurnHistory | backend/main.py:280 | one user turn "hi" gives `**USER:** hi` |
| Answer.FinalContext | backend/main.py:275 | the document context and the web results each stand under their heading, in that order, and the context ends with a blank line ("\n\n"); its length is the sum of the parts |
| Answer.FinalPrompt | backend/main.py:285-294 | instructions, history, context heading, context and model lines stand at consecutive offsets, the prompt ends with the question lines, and its length is the sum of the six parts |
| Answer.WebResultsInPrompt | backend/main.py:275-294 | the web-search context stands in the prompt right after the document context and its heading |
| Answer.OllamaReply | backend/main.py:184-200 | only a reply without a `response` field raises; a generated reply is its text; a connection error becomes "Error: Failed to connect to the Ollama API: " and its detail; a non-JSON body becomes "Error: Could not decode JSON response: " and the body |
| Answer.WebContext | backend/main.py:242-253 | empty when web search is disabled; when enabled, the formatted outcome of a search on the stripped prompt |
| Answer.GenerationCall | backend/main.py:224-294 | once the prompt is embedded, the flow stops exactly when the consulted vector query raises, with the vector-query error; otherwise it generates with the resolved model |
| Answer.Respond | backend/main.py:223-307 | a failed prompt embedding ends the request with the embedding error; a raising vector query, once consulted, with the vector-query error |
| Answer.RespondGenerates | backend/main.py:224-300 | once the prompt is embedded and the document context retrieved, the answer is the generation reply for the resolved model and the assembled prompt |
| Answer.RespondOutcome | backend/main.py:223-307 | the flow fails exactly on the three fatal steps, and once the context is retrieved it answers with the generation reply for the resolved model and prompt |
| Answer.EmbeddedRespondFails | backend/main.py:254-307 | once the prompt is embedded, the flow fails exactly on a raising vector query or a generation reply without `response` |
| Answer.RespondFailsOnlyOnFatalSteps | backend/main.py:223-307 | the flow fails exactly when the prompt embedding fails, the consulted vector query raises, or the reply lacks `response`; search and history failures never end it |
| Answer.NoUploadNoDocuments | backend/main.py:255-275 | without an upload the prompt carries an empty document context whatever the filename |
| Answer.WebContextInCall | backend/main.py:242-298 | once the document context is retrieved, the call reaches generation with the web context standing right after the document context and its heading |
| Answer.SearchFailureDegrades | backend/main.py:246-252 | a failing search still reaches generation, with the error text standing in the prompt where the results would be |
| Backend.ChunkIds | backend/main.py:131 | the IDs are `<filename>_<i>` for i in 0..n-1, in order |
| Backend.ChunkIdInjective | backend/main.py:131 | two chunk IDs coincide only for the same filename and index |
| Backend.ChunkIdsDistinct | backend/main.py:131 | the IDs deleted before re-insert are pairwise distinct |
| Backend.ChunkIdInIds | backend/main.py:131-135 | the ID of chunk k is among a file's first n IDs exactly when k < n |
| Backend.OtherFileIdNotInIds | backend/main.py:131-135 | no chunk ID of another file is among a file's IDs |
| Backend.AddChunks | backend/main.py:142-157 | the add loop never removes or changes an entry already in the collection |
| Backend.AddChunksOnlyOwnIds | backend/main.py:142-157 | the add loop introduces only the file's own chunk IDs |
| Backend.AddChunksComplete | backend/main.py:142-157 | the adds complete exactly when every remaining chunk is embedded |
| Backend.AddChunksStores | backend/main.py:142-157 | when the adds complete, every remaining chunk was embedded and its ID is present, and each ID that was free holds its chunk's embedding, text and filename |
| Backend.Cleared | backend/main.py:133-139 | the IDs are deleted unless the list is empty or the delete raises, in which case the collection is unchanged |
| Backend.StrippedTextHasChunks | backend/main.py:119-134 | non-empty extracted text yields at least one chunk, so the guarded delete always runs |
| Backend.IngestTextOutcome | backend/main.py:119-162 | empty text fails with the state untouched; otherwise success exactly when every chunk is embedded; the model map is updated on success only |
| Backend.Ingest | backend/main.py:112-162 | an iteration fails as unsupported exactly when the upload's extension is unsupported, and then the state is untouched |
| Backend.IngestText | backend/main.py:119-162 | empty extracted text fails with the state untouched; ingesting text never yields the unsupported-type error |
| Backend.IngestSuccessNeedsSupportedFile | backend/main.py:118-160 | an ingest succeeds only for a supported, non-empty name with at least one chunk, and records the model for it |
| Backend.IngestStores | backend/main.py:142-157 | after a successful ingest whose delete went through, each `<f>_<i>` holds chunk i, its embedding and metadata f |
| Backend.IngestFrame | backend/main.py:130-157 | only the file's own chunk IDs change: other entries are kept and no other ID appears |
| Backend.IngestKeepsLaterIndices | backend/main.py:131-139 | entries at indices past the new chunk count, left by an earlier longer upload, are untouched |
| Backend.IngestKeepsOtherFiles | backend/main.py:131-157 | the chunks of every other file are untouched |
| Backend.StaleChunksStayReachable | backend/main.py:131-139 | such leftover chunks still match a query filtered on the filename |
| Backend.IngestFailedDeleteKeepsOld | backend/main.py:133-139 | when the delete raises (swallowed), entries already under the file's IDs keep their old content |
| Backend.ScannedPdfRejected | backend/main.py:118-120 | a PDF whose pages yield no text ends the request before anything changes |
| Backend.IngestThenResolveModel | backend/main.py:160 | after a successful ingest, the answer flow generates with the recorded model whatever model the request names |
| Backend.IngestRecordsModel | backend/main.py:159-160 | an ingest either leaves the model map alone or sets the request's model for its file only |
| Backend.Process | backend/main.py:110-172 | a request with no files succeeds with no filenames and no change; a successful request returns one filename per file |
| Backend.ProcessReturnsFilenames | backend/main.py:110-165 | a successful request returns every filename, in upload order |
| Backend.ProcessAppend | backend/main.py:111-172 | processing a + b is processing a and then, unless it failed, b from the state a left; a failure keeps earlier changes and skips later files |
| Backend.ProcessKeepsRecordedModels | backend/main.py:159-160 | a request never removes a recorded model; each keeps its value or gets the request's model |
| Backend.ProcessRecordsModel | backend/main.py:112-162 | after a successful request every uploaded filename maps to the request's model |
| Backend.ResetClears | backend/main.py:320-327 | after a reset the model map is empty, only "null"-metadata entries remain (all of them), and no supported filename matches any entry |
| Backend.Reset | backend/main.py:320-330 | the model map is always cleared; the request succeeds exactly when the delete does not raise, and a raising delete leaves the collection unchanged |
| Backend.NullUnsupported | backend/file_processor.py:13-18 | "null", the one metadata value the reset's delete spares, is never an accepted upload name, since it has no "." |
| Backend.IngestKeepsModelKeysSupported | backend/main.py:118-160 | every filename with a recorded model stays one of a supported type |
| Backend.RagServer.constructor | backend/main.py:37-41 | startup reopens the stored collection with an empty model map |
| Backend.RagServer.IngestFile | backend/main.py:112-162 | one loop iteration updates the fields to the ingest specification's new state and returns its outcome |
| Backend.RagServer.IngestExtracted | backend/main.py:119-162 | the delete and the add loop update the fields as the ingest of the extracted text specifies |
| Backend.RagServer.ProcessFiles | backend/main.py:110-172 | the file loop yields the request specification's state and filenames or error |
| Backend.RagServer.ClearContext | backend/main.py:313-330 | the model map is cleared, then the delete runs, as the reset specification states |
| Backend.RagServer.GenerateResponse | backend/main.py:207-307 | over the current model map and the backend's prompt wording, the answer fails exactly when the prompt embedding fails, the consulted vector query raises or the reply lacks `response`; once the context is retrieved it is the generation reply for the resolved model and the assembled prompt |

## Left out

- HTTP routing, CORS, form parsing, `print` logging and the numeric status codes: errors are datatypes, and every ingest error stands for the 500 the handler returns.
- The embedding, generation and model-listing requests (`list_models`, `get_ollama_response`, the embedding posts) are network calls. The embedding is a function from text to an optional vector. The same text therefore always gets the same embedding, and a failed request, bad JSON or missing `embedding` field are one case (`None`). The generation reply is one of four outcome classes (`Answer.GenerateOutcome`).
- Vector-store ranking: the query is an input that is not tied to the modelled collection, and `n_results=2` is not modelled. Embeddings are opaque sequences of reals.
- Document parsing (PyPDF2, python-pptx, OpenCV, pytesseract) and writing the upload under `uploads/` are foreign calls and I/O. What they yield is an input (`FileProcessor.LibraryOutput`).
- `backend/google_search.py` is not part of this model. The search is an input that yields results or the text of the exception that ended it.
- JSON parsing of the message history is an input: the parsed turns, or `None` when parsing or formatting fails.
- Unicode case mapping: `lower()`/`upper()` are modelled on ASCII letters only. `isspace()` is modelled with Python's full whitespace set.
- Concurrency: requests are sequential.
- The HTTP `detail` strings of the 400 and 500 responses are not modelled: the ingest, clear and answer errors carry no message. The two exception texts that reach the output are modelled as inputs: a failed search's `str(e)` in the web context (backend/main.py:250-252) and a failed generation request's `str(e)` or undecodable body in the reply (backend/main.py:184-200).
- Chunker.ChunkText: does not model a negative `chunk_size`, where Python slicing would behave differently. The window size is a `nat`; the only caller passes 200 and 20, and the default of 500/50 is unused.
- Store.AddIfAbsent: adding an ID that is already stored is modelled as keeping the stored entry. A store that overwrites instead would make `Backend.IngestFailedDeleteKeepsOld` describe the overwritten entry's old content.
- Backend.AddChunks: `collection.add` (backend/main.py:152-157) is assumed never to raise. A raising add would end the request with a 500 like a failed embedding (`Backend.IngestError.EmbeddingFailed`), keeping the adds before it and leaving the model map alone.
- FileProcessor.ExtractedText: writing the upload (backend/file_processor.py:15-16) and the parsing libraries (lines 21, 31, 46-47) are assumed not to raise. A failure there would end the request before any state change, like an unsupported type (`Backend.IngestError.UnsupportedFile`).
- Backend.Cleared: the delete either removes all listed IDs or raises without removing any; a partially applied delete is not modelled.
- Backend.RagServer.GenerateResponse: the vector query does not read the `collection` field; it is an input, as above.
