/**
  The backend's shared state and the two endpoints that change it:
  `process_files` (extract, chunk, best-effort delete of the chunk IDs,
  embed and add every chunk, record the generation model) and
  `clear_context` (clear the model map, delete every entry whose filename
  metadata is not "null"). The state is the vector collection and the
  `filename_to_model` dictionary; `generate_response` only reads them.
 */
module Backend {
  import opened Wrappers
  import opened Text
  import opened Chunker
  import opened FileProcessor
  import opened Store
  import opened Answer

  /** The window size and overlap `process_files` passes to the splitter. */
  const ChunkSize: nat := 200
  const ChunkOverlap: int := 20

  // ---------------------------------------------------------------
  // Chunk IDs
  // ---------------------------------------------------------------

  /** The ID `f"{filename}_{i}"` under which chunk `i` of a file is stored. */
  function ChunkId(filename: string, i: nat): string {
    filename + "_" + NatToString(i)
  }

  /** The IDs of the first `n` chunks of a file, in index order. */
  function ChunkIds(filename: string, n: nat): (ids: seq<string>)
    ensures |ids| == n
    ensures forall i :: 0 <= i < n ==> ids[i] == ChunkId(filename, i)
  {
    seq(n, i requires 0 <= i < n => ChunkId(filename, i))
  }

  /**
    Two chunk IDs coincide only for the same file and index: the index is
    printed in decimal, which holds no "_", so it is what follows the last
    "_" of the ID, and the filename is what precedes it.
   */
  lemma ChunkIdInjective(f: string, i: nat, g: string, j: nat)
    requires ChunkId(f, i) == ChunkId(g, j)
    ensures f == g && i == j
  {
    var id := ChunkId(f, i);
    assert id == f + ['_'] + NatToString(i);
    assert id == g + ['_'] + NatToString(j);
    AfterLastOf(f, '_', NatToString(i));
    AfterLastOf(g, '_', NatToString(j));
    NatToStringInjective(i, j);
    assert f == id[..|f|] && g == id[..|g|];
  }

  /** The IDs deleted before a re-insert are pairwise distinct. */
  lemma ChunkIdsDistinct(filename: string, n: nat)
    ensures forall a, b :: 0 <= a < b < n ==> ChunkIds(filename, n)[a] != ChunkIds(filename, n)[b]
  {
    forall a, b | 0 <= a < b < n
      ensures ChunkIds(filename, n)[a] != ChunkIds(filename, n)[b]
    {
      if ChunkId(filename, a) == ChunkId(filename, b) {
        ChunkIdInjective(filename, a, filename, b);
      }
    }
  }

  /** The ID of chunk `k` is among the first `n` IDs of its file exactly when `k < n`. */
  lemma ChunkIdInIds(filename: string, k: nat, n: nat)
    ensures ChunkId(filename, k) in ChunkIds(filename, n) <==> k < n
  {
    if ChunkId(filename, k) in ChunkIds(filename, n) {
      var a :| 0 <= a < n && ChunkIds(filename, n)[a] == ChunkId(filename, k);
      ChunkIdInjective(filename, a, filename, k);
    }
  }

  /** No chunk ID of another file is among a file's IDs. */
  lemma OtherFileIdNotInIds(filename: string, other: string, k: nat, n: nat)
    requires other != filename
    ensures ChunkId(other, k) !in ChunkIds(filename, n)
  {
    if ChunkId(other, k) in ChunkIds(filename, n) {
      var a :| 0 <= a < n && ChunkIds(filename, n)[a] == ChunkId(other, k);
      ChunkIdInjective(filename, a, other, k);
    }
  }

  // ---------------------------------------------------------------
  // State, collaborators and outcomes
  // ---------------------------------------------------------------

  /** The two pieces of state the endpoints share. */
  datatype State = State(collection: Collection, filenameToModel: map<string, string>)

  /** One uploaded file: its name and what the parsing libraries yield for its bytes. */
  datatype Upload = Upload(filename: string, library: LibraryOutput)

  /**
    The collaborators of an ingest: the embedding of a chunk (`None` when
    the embedding request, its JSON or its `embedding` field fails), and
    whether `collection.delete(ids=...)` raises for a given ID list.
   */
  datatype IngestServices = IngestServices(embed: string -> Option<Embedding>, deleteRaises: seq<string> -> bool)

  /**
    Why a file ends the request. Every one of them ends it with status 500:
    the unsupported-type `ValueError`, the 400 for empty text (raised inside
    the handler's `try`, so its generic `except` turns it into a 500), and
    a failed embedding request.
   */
  datatype IngestError = UnsupportedFile | NoTextExtracted | EmbeddingFailed

  /** `clear_context` fails only when the store's delete raises. */
  datatype ClearError = StoreDeleteFailed

  /** A state together with how the operation that produced it ended. */
  datatype Step<E> = Step(state: State, outcome: Outcome<E>)

  /** The state after a request together with its filenames, or the error that ended it. */
  datatype Reply = Reply(state: State, result: Result<seq<string>, IngestError>)

  /** The chunks `process_files` cuts an extracted text into. */
  function TextChunks(text: string): seq<string> {
    Chunks(text, ChunkSize, ChunkOverlap)
  }

  // ---------------------------------------------------------------
  // Adding the chunks
  // ---------------------------------------------------------------

  /** The collection after the adds, and whether every chunk was embedded. */
  datatype Added = Added(collection: Collection, complete: bool)

  /**
    Embed and add chunks `i`, `i + 1`, ... under their IDs, stopping at the
    first chunk whose embedding fails; the adds made before it stay. An
    entry already stored is never overwritten.
   */
  function AddChunks(c: Collection, filename: string, chunks: seq<string>, embed: string -> Option<Embedding>, i: nat): (r: Added)
    requires i <= |chunks|
    ensures forall id :: id in c ==> id in r.collection && r.collection[id] == c[id]
    decreases |chunks| - i
  {
    if i == |chunks| then Added(c, true)
    else
      match embed(chunks[i])
      case None => Added(c, false)
      case Some(embedding) =>
        AddChunks(AddIfAbsent(c, ChunkId(filename, i), Entry(embedding, chunks[i], filename)), filename, chunks, embed, i + 1)
  }

  /** The adds only ever introduce the file's own chunk IDs. */
  lemma {:induction false} AddChunksOnlyOwnIds(c: Collection, filename: string, chunks: seq<string>, embed: string -> Option<Embedding>, i: nat)
    requires i <= |chunks|
    ensures forall id :: id in AddChunks(c, filename, chunks, embed, i).collection ==> id in c || id in ChunkIds(filename, |chunks|)
    decreases |chunks| - i
  {
    if i < |chunks| && embed(chunks[i]).Some? {
      var c' := AddIfAbsent(c, ChunkId(filename, i), Entry(embed(chunks[i]).value, chunks[i], filename));
      AddChunksOnlyOwnIds(c', filename, chunks, embed, i + 1);
      assert ChunkIds(filename, |chunks|)[i] == ChunkId(filename, i);
    }
  }

  /** The adds complete exactly when every remaining chunk is embedded. */
  lemma {:induction false} AddChunksComplete(c: Collection, filename: string, chunks: seq<string>, embed: string -> Option<Embedding>, i: nat)
    requires i <= |chunks|
    ensures AddChunks(c, filename, chunks, embed, i).complete <==> forall k :: i <= k < |chunks| ==> embed(chunks[k]).Some?
    decreases |chunks| - i
  {
    if i < |chunks| {
      EmbeddedFrom(chunks, embed, i);
      if embed(chunks[i]).Some? {
        var c' := AddIfAbsent(c, ChunkId(filename, i), Entry(embed(chunks[i]).value, chunks[i], filename));
        AddChunksComplete(c', filename, chunks, embed, i + 1);
      }
    }
  }

  lemma EmbeddedFrom(chunks: seq<string>, embed: string -> Option<Embedding>, i: nat)
    requires i < |chunks|
    ensures (forall k :: i <= k < |chunks| ==> embed(chunks[k]).Some?)
            <==> embed(chunks[i]).Some? && forall k :: i + 1 <= k < |chunks| ==> embed(chunks[k]).Some?
  {
  }

  /**
    When the adds complete, every remaining chunk was embedded and its ID is present, and a
    chunk whose ID was free is stored under it with its embedding, its
    text and the filename.
   */
  lemma {:induction false} AddChunksStores(c: Collection, filename: string, chunks: seq<string>, embed: string -> Option<Embedding>, i: nat)
    requires i <= |chunks|
    ensures var r := AddChunks(c, filename, chunks, embed, i);
            && (r.complete ==> forall k :: i <= k < |chunks| ==> embed(chunks[k]).Some? && ChunkId(filename, k) in r.collection)
            && (r.complete ==> forall k :: i <= k < |chunks| && ChunkId(filename, k) !in c ==>
                  r.collection[ChunkId(filename, k)] == Entry(embed(chunks[k]).value, chunks[k], filename))
    decreases |chunks| - i
  {
    if i < |chunks| && embed(chunks[i]).Some? {
      var id := ChunkId(filename, i);
      var c' := AddIfAbsent(c, id, Entry(embed(chunks[i]).value, chunks[i], filename));
      AddChunksStores(c', filename, chunks, embed, i + 1);
      forall k | i < k < |chunks| && ChunkId(filename, k) !in c
        ensures ChunkId(filename, k) !in c'
      {
        if ChunkId(filename, k) == id {
          ChunkIdInjective(filename, k, filename, i);
        }
      }
    }
  }

  // ---------------------------------------------------------------
  // Ingesting one file
  // ---------------------------------------------------------------

  /**
    One iteration of the loop in `process_files`: extract the text (an
    unsupported type ends the request before anything changes), then
    ingest that text.
   */
  function Ingest(s: State, upload: Upload, model: string, services: IngestServices): (r: Step<IngestError>)
    ensures r.outcome == Fail(UnsupportedFile) <==> Classify(upload.filename).Failure?
    ensures r.outcome == Fail(UnsupportedFile) ==> r.state == s
  {
    match ExtractedText(upload.filename, upload.library)
    case Failure(_) => Step(s, Fail(UnsupportedFile))
    case Success(text) => IngestText(s, upload.filename, text, model, services)
  }

  /**
    What follows the extraction: empty text ends the request before
    anything changes; otherwise the text is chunked, the chunk IDs are
    deleted unless the delete raises (which is swallowed), the chunks are
    added, and the model is recorded for the filename once every chunk is
    stored.
   */
  function IngestText(s: State, filename: string, text: string, model: string, services: IngestServices): (r: Step<IngestError>)
    ensures text == [] ==> r == Step(s, Fail(NoTextExtracted))
    ensures r.outcome != Fail(UnsupportedFile)
  {
    if text == [] then Step(s, Fail(NoTextExtracted))
    else
      var chunks := TextChunks(text);
      var ids := ChunkIds(filename, |chunks|);
      var added := AddChunks(Cleared(s.collection, ids, services.deleteRaises), filename, chunks, services.embed, 0);
      if added.complete then Step(State(added.collection, s.filenameToModel[filename := model]), Pass)
      else Step(State(added.collection, s.filenameToModel), Fail(EmbeddingFailed))
  }

  /** The collection before the adds: the file's IDs deleted, unless there are none or the delete raises. */
  function Cleared(c: Collection, ids: seq<string>, deleteRaises: seq<string> -> bool): (r: Collection)
    ensures ids != [] && !deleteRaises(ids) ==> r == DeleteIds(c, ids)
    ensures ids == [] || deleteRaises(ids) ==> r == c
  {
    if ids != [] && !deleteRaises(ids) then DeleteIds(c, ids) else c
  }

  /** The ingest of a non-empty text, through the delete and the adds. */
  lemma IngestTextSteps(s: State, filename: string, text: string, model: string, services: IngestServices)
    requires text != []
    ensures var chunks := TextChunks(text);
            var added := AddChunks(Cleared(s.collection, ChunkIds(filename, |chunks|), services.deleteRaises), filename, chunks, services.embed, 0);
            IngestText(s, filename, text, model, services)
            == if added.complete then Step(State(added.collection, s.filenameToModel[filename := model]), Pass)
               else Step(State(added.collection, s.filenameToModel), Fail(EmbeddingFailed))
  {
  }

  /**
    Extracted text is stripped, so when it is not empty it is not all
    whitespace and yields at least one chunk: the guarded delete is always
    attempted for a file that gets that far.
   */
  lemma StrippedTextHasChunks(text: string)
    requires NoEdgeSpace(text) && text != []
    ensures |TextChunks(text)| >= 1
  {
    assert !IsSpace(text[0]);
    ChunkCount(text, ChunkSize, ChunkOverlap);
  }

  /**
    How the ingest of an extracted text ends: empty text fails with the
    state untouched, and otherwise it succeeds exactly when every chunk is
    embedded; the model map is updated for the filename on success and
    kept otherwise.
   */
  lemma IngestTextOutcome(s: State, filename: string, text: string, model: string, services: IngestServices)
    ensures var r := IngestText(s, filename, text, model, services);
            && (text == [] ==> r == Step(s, Fail(NoTextExtracted)))
            && (text != [] ==> (r.outcome == Pass <==> forall k :: 0 <= k < |TextChunks(text)| ==> services.embed(TextChunks(text)[k]).Some?))
            && (r.outcome.Fail? ==> r.state.filenameToModel == s.filenameToModel)
            && (r.outcome == Pass ==> r.state.filenameToModel == s.filenameToModel[filename := model])
  {
    if text != [] {
      var chunks := TextChunks(text);
      IngestTextSteps(s, filename, text, model, services);
      AddChunksComplete(Cleared(s.collection, ChunkIds(filename, |chunks|), services.deleteRaises), filename, chunks, services.embed, 0);
    }
  }

  /**
    A file is ingested only when its type is supported, its name is not
    empty and its text yields at least one chunk; the model is then
    recorded for it.
   */
  lemma IngestSuccessNeedsSupportedFile(s: State, upload: Upload, model: string, services: IngestServices)
    requires Ingest(s, upload, model, services).outcome == Pass
    ensures Classify(upload.filename).Success?
    ensures upload.filename != []
    ensures var text := ExtractedText(upload.filename, upload.library).value;
            && |TextChunks(text)| >= 1
            && Ingest(s, upload, model, services) == IngestText(s, upload.filename, text, model, services)
            && Ingest(s, upload, model, services).state.filenameToModel == s.filenameToModel[upload.filename := model]
  {
    var text := ExtractedText(upload.filename, upload.library).value;
    StrippedTextHasChunks(text);
    IngestTextOutcome(s, upload.filename, text, model, services);
    if upload.filename == [] {
      NoDotUnsupported(upload.filename);
    }
  }

  /**
    After a successful ingest whose delete went through, every chunk `i` of
    the file is stored under `"<filename>_<i>"` with its embedding, its text
    and the filename as metadata.
   */
  lemma IngestStores(s: State, filename: string, text: string, model: string, services: IngestServices)
    requires IngestText(s, filename, text, model, services).outcome == Pass
    requires !services.deleteRaises(ChunkIds(filename, |TextChunks(text)|))
    ensures var after := IngestText(s, filename, text, model, services).state;
            var chunks := TextChunks(text);
            forall k :: 0 <= k < |chunks| ==>
              && services.embed(chunks[k]).Some?
              && ChunkId(filename, k) in after.collection
              && after.collection[ChunkId(filename, k)] == Entry(services.embed(chunks[k]).value, chunks[k], filename)
  {
    var chunks := TextChunks(text);
    var ids := ChunkIds(filename, |chunks|);
    var cleared := Cleared(s.collection, ids, services.deleteRaises);
    forall k | 0 <= k < |chunks|
      ensures ChunkId(filename, k) !in cleared
    {
      assert ids[k] == ChunkId(filename, k);
    }
    IngestTextSteps(s, filename, text, model, services);
    AddChunksStores(cleared, filename, chunks, services.embed, 0);
  }

  /**
    Nothing but the file's own chunk IDs changes in the collection: every
    other entry is kept as it was, and no other ID appears.
   */
  lemma IngestFrame(s: State, filename: string, text: string, model: string, services: IngestServices)
    ensures var after := IngestText(s, filename, text, model, services).state;
            var ids := ChunkIds(filename, |TextChunks(text)|);
            && (forall id :: id in s.collection && id !in ids ==> id in after.collection && after.collection[id] == s.collection[id])
            && (forall id :: id in after.collection ==> id in s.collection || id in ids)
  {
    if text != [] {
      var chunks := TextChunks(text);
      IngestTextSteps(s, filename, text, model, services);
      AddChunksOnlyOwnIds(Cleared(s.collection, ChunkIds(filename, |chunks|), services.deleteRaises), filename, chunks, services.embed, 0);
    }
  }

  /**
    Entries left by an earlier, longer ingest of the same file, at indices
    past the new chunk count, are neither deleted nor replaced.
   */
  lemma IngestKeepsLaterIndices(s: State, filename: string, text: string, model: string, services: IngestServices, k: nat)
    requires k >= |TextChunks(text)|
    requires ChunkId(filename, k) in s.collection
    ensures var after := IngestText(s, filename, text, model, services).state;
            && ChunkId(filename, k) in after.collection
            && after.collection[ChunkId(filename, k)] == s.collection[ChunkId(filename, k)]
  {
    ChunkIdInIds(filename, k, |TextChunks(text)|);
    IngestFrame(s, filename, text, model, services);
  }

  /** The chunks of every other file are untouched. */
  lemma IngestKeepsOtherFiles(s: State, filename: string, text: string, model: string, services: IngestServices, other: string, k: nat)
    requires other != filename
    requires ChunkId(other, k) in s.collection
    ensures var after := IngestText(s, filename, text, model, services).state;
            && ChunkId(other, k) in after.collection
            && after.collection[ChunkId(other, k)] == s.collection[ChunkId(other, k)]
  {
    OtherFileIdNotInIds(filename, other, k, |TextChunks(text)|);
    IngestFrame(s, filename, text, model, services);
  }

  /**
    When a re-upload yields fewer chunks than before, the surplus chunks of
    the earlier version still carry the filename, so a query filtered on
    that filename can still rank them.
   */
  lemma StaleChunksStayReachable(s: State, filename: string, text: string, model: string, services: IngestServices, k: nat)
    requires k >= |TextChunks(text)|
    requires ChunkId(filename, k) in s.collection
    requires s.collection[ChunkId(filename, k)].filename == filename
    ensures ChunkId(filename, k) in WithFilename(IngestText(s, filename, text, model, services).state.collection, filename)
  {
    IngestKeepsLaterIndices(s, filename, text, model, services, k);
  }

  /**
    When the best-effort delete raises, an entry already stored under one of
    the file's IDs keeps its old text and embedding: the failure is
    swallowed and the add skips existing IDs.
   */
  lemma IngestFailedDeleteKeepsOld(s: State, filename: string, text: string, model: string, services: IngestServices, k: nat)
    requires services.deleteRaises(ChunkIds(filename, |TextChunks(text)|))
    requires ChunkId(filename, k) in s.collection
    ensures var after := IngestText(s, filename, text, model, services).state;
            && ChunkId(filename, k) in after.collection
            && after.collection[ChunkId(filename, k)] == s.collection[ChunkId(filename, k)]
  {
    if text != [] {
      var chunks := TextChunks(text);
      IngestTextSteps(s, filename, text, model, services);
      assert Cleared(s.collection, ChunkIds(filename, |chunks|), services.deleteRaises) == s.collection;
    }
  }

  /** A PDF without a text layer ends the request before anything changes. */
  lemma ScannedPdfRejected(s: State, upload: Upload, model: string, services: IngestServices)
    requires Classify(upload.filename) == Success(Pdf)
    requires forall i :: 0 <= i < |upload.library.pdfPages| ==> upload.library.pdfPages[i] == None
    ensures Ingest(s, upload, model, services) == Step(s, Fail(NoTextExtracted))
  {
    PdfWithoutTextLayer(upload.library.pdfPages);
  }

  /**
    After a successful ingest the answer flow generates with the model
    recorded for that filename, whatever model the request names.
   */
  lemma IngestThenResolveModel(s: State, upload: Upload, model: string, services: IngestServices, requested: string)
    requires Ingest(s, upload, model, services).outcome == Pass
    ensures ResolveModel(requested, upload.filename, Ingest(s, upload, model, services).state.filenameToModel) == model
  {
    IngestSuccessNeedsSupportedFile(s, upload, model, services);
  }

  // ---------------------------------------------------------------
  // A request of several files
  // ---------------------------------------------------------------

  /** Prepend the filenames handled so far to a later reply's filenames. */
  function Prefixed(names: seq<string>, reply: Reply): (r: Reply)
    ensures r.state == reply.state
    ensures r.result.Success? <==> reply.result.Success?
    ensures reply.result.Failure? ==> r.result == reply.result
    ensures reply.result.Success? ==> r.result.value == names + reply.result.value
  {
    match reply.result
    case Success(later) => Reply(reply.state, Success(names + later))
    case Failure(_) => reply
  }

  lemma PrefixedNothing(reply: Reply)
    ensures Prefixed([], reply) == reply
  {
    if reply.result.Success? {
      assert [] + reply.result.value == reply.result.value;
    }
  }

  lemma PrefixedTwice(first: seq<string>, second: seq<string>, reply: Reply)
    ensures Prefixed(first, Prefixed(second, reply)) == Prefixed(first + second, reply)
  {
    if reply.result.Success? {
      assert first + (second + reply.result.value) == (first + second) + reply.result.value;
    }
  }

  /**
    `process_files`: the files in upload order, each ingested into the
    state the previous one left; the first failing file ends the request,
    and what the files before it changed stays changed.
   */
  function Process(s: State, files: seq<Upload>, model: string, services: IngestServices): (r: Reply)
    ensures files == [] ==> r == Reply(s, Success([]))
    ensures r.result.Success? ==> |r.result.value| == |files|
    decreases |files|
  {
    if files == [] then Reply(s, Success([]))
    else
      var step := Ingest(s, files[0], model, services);
      match step.outcome
      case Fail(e) => Reply(step.state, Failure(e))
      case Pass => Prefixed([files[0].filename], Process(step.state, files[1..], model, services))
  }

  /** The names of a list of uploads, in order. */
  function Filenames(files: seq<Upload>): (names: seq<string>)
    ensures |names| == |files|
    ensures forall i :: 0 <= i < |files| ==> names[i] == files[i].filename
  {
    seq(|files|, i requires 0 <= i < |files| => files[i].filename)
  }

  /** The first file of a request is ingested first, and the request goes on with the rest only when it passes. */
  lemma ProcessFirst(s: State, files: seq<Upload>, model: string, services: IngestServices)
    requires files != []
    ensures var step := Ingest(s, files[0], model, services);
            Process(s, files, model, services)
            == if step.outcome.Pass? then Prefixed([files[0].filename], Process(step.state, files[1..], model, services))
               else Reply(step.state, Failure(step.outcome.error))
  {
  }

  /** A successful request returns every filename, in upload order. */
  lemma {:induction false} ProcessReturnsFilenames(s: State, files: seq<Upload>, model: string, services: IngestServices)
    requires Process(s, files, model, services).result.Success?
    ensures Process(s, files, model, services).result.value == Filenames(files)
    decreases |files|
  {
    if files != [] {
      var step := Ingest(s, files[0], model, services);
      var rest := Process(step.state, files[1..], model, services);
      assert step.outcome.Pass? && Process(s, files, model, services) == Prefixed([files[0].filename], rest) by {
        ProcessFirst(s, files, model, services);
      }
      ProcessReturnsFilenames(step.state, files[1..], model, services);
      FilenamesFirst(files);
    }
  }

  lemma FilenamesFirst(files: seq<Upload>)
    requires files != []
    ensures Filenames(files) == [files[0].filename] + Filenames(files[1..])
  {
    assert Filenames(files) == [files[0].filename] + Filenames(files[1..]);
  }

  /**
    Processing `a + b` is processing `a` and then, unless it failed, `b`
    from the state `a` left: a failing file never undoes the changes of
    the files before it, and no file after it is looked at.
   */
  lemma {:induction false} ProcessAppend(s: State, a: seq<Upload>, b: seq<Upload>, model: string, services: IngestServices)
    ensures var first := Process(s, a, model, services);
            Process(s, a + b, model, services)
            == if first.result.Failure? then first else Prefixed(first.result.value, Process(first.state, b, model, services))
    decreases |a|
  {
    if a == [] {
      assert a + b == b;
      PrefixedNothing(Process(s, b, model, services));
    } else {
      var step := Ingest(s, a[0], model, services);
      AppendFirst(a, b);
      ProcessFirst(s, a, model, services);
      ProcessFirst(s, a + b, model, services);
      if step.outcome.Pass? {
        var rest := Process(step.state, a[1..], model, services);
        ProcessAppend(step.state, a[1..], b, model, services);
        if rest.result.Success? {
          PrefixedTwice([a[0].filename], rest.result.value, Process(rest.state, b, model, services));
        }
      }
    }
  }

  lemma AppendFirst(a: seq<Upload>, b: seq<Upload>)
    requires a != []
    ensures a + b != [] && (a + b)[0] == a[0] && (a + b)[1..] == a[1..] + b
  {
    assert (a + b)[1..] == a[1..] + b;
  }

  /**
    A request never removes a recorded model: every filename keeps its
    model or gets the request's model, whether the request succeeds or not.
   */
  lemma {:induction false} ProcessKeepsRecordedModels(s: State, files: seq<Upload>, model: string, services: IngestServices)
    ensures KeepsModels(s.filenameToModel, Process(s, files, model, services).state.filenameToModel, model)
    decreases |files|
  {
    if files != [] {
      var next, passed := ProcessStep(s, files, model, services);
      if passed {
        ProcessKeepsRecordedModels(next, files[1..], model, services);
        KeepsModelsChain(s.filenameToModel, next.filenameToModel, Process(s, files, model, services).state.filenameToModel, model);
      }
    }
  }

  /** The first upload keeps the recorded models; the request then either stops there or goes on with the remaining uploads. */
  lemma ProcessStep(s: State, files: seq<Upload>, model: string, services: IngestServices) returns (next: State, passed: bool)
    requires files != []
    ensures KeepsModels(s.filenameToModel, next.filenameToModel, model)
    ensures Process(s, files, model, services).state == if passed then Process(next, files[1..], model, services).state else next
  {
    var step := Ingest(s, files[0], model, services);
    next, passed := step.state, step.outcome.Pass?;
    IngestRecordsModel(s, files[0], model, services);
    if passed {
      UpdateKeepsModels(s.filenameToModel, files[0].filename, model);
    } else {
      KeepsModelsSame(s.filenameToModel, model);
    }
    ProcessFirst(s, files, model, services);
  }

  lemma UpdateKeepsModels(m: map<string, string>, f: string, model: string)
    ensures KeepsModels(m, m[f := model], model)
  {
  }

  lemma KeepsModelsSame(m: map<string, string>, model: string)
    ensures KeepsModels(m, m, model)
  {
  }

  /** Every filename of `before` is still in `after`, with its old model or with `model`. */
  ghost predicate KeepsModels(before: map<string, string>, after: map<string, string>, model: string)
  {
    forall f :: f in before ==> f in after && (after[f] == before[f] || after[f] == model)
  }

  lemma KeepsModelsChain(before: map<string, string>, mid: map<string, string>, after: map<string, string>, model: string)
    requires KeepsModels(before, mid, model) && KeepsModels(mid, after, model)
    ensures KeepsModels(before, after, model)
  {
  }

  /** One ingest either leaves the model map alone, or records the request's model for its file and only there. */
  lemma IngestRecordsModel(s: State, upload: Upload, model: string, services: IngestServices)
    ensures var r := Ingest(s, upload, model, services);
            && (r.outcome == Pass ==> r.state.filenameToModel == s.filenameToModel[upload.filename := model])
            && (r.outcome.Fail? ==> r.state.filenameToModel == s.filenameToModel)
  {
    var r := Ingest(s, upload, model, services);
    if r.outcome == Pass {
      IngestSuccessNeedsSupportedFile(s, upload, model, services);
    } else if ExtractedText(upload.filename, upload.library).Success? {
      IngestTextOutcome(s, upload.filename, ExtractedText(upload.filename, upload.library).value, model, services);
    }
  }

  /** After a successful request every uploaded file is mapped to the request's model. */
  lemma {:induction false} ProcessRecordsModel(s: State, files: seq<Upload>, model: string, services: IngestServices)
    requires Process(s, files, model, services).result.Success?
    ensures var after := Process(s, files, model, services).state;
            forall i :: 0 <= i < |files| ==> files[i].filename in after.filenameToModel && after.filenameToModel[files[i].filename] == model
    decreases |files|
  {
    if files != [] {
      var step := Ingest(s, files[0], model, services);
      var rest := Process(step.state, files[1..], model, services);
      assert step.outcome.Pass? && Process(s, files, model, services).state == rest.state by {
        ProcessFirst(s, files, model, services);
      }
      var after := rest.state.filenameToModel;
      assert files[0].filename in after && after[files[0].filename] == model by {
        IngestRecordsModel(s, files[0], model, services);
        ProcessKeepsRecordedModels(step.state, files[1..], model, services);
        RecordedModelKept(s.filenameToModel, step.state.filenameToModel, after, files[0].filename, model);
      }
      assert forall i :: 0 <= i < |files[1..]| ==> files[1..][i].filename in after && after[files[1..][i].filename] == model by {
        ProcessRecordsModel(step.state, files[1..], model, services);
      }
      AllMappedFirst(files, after, model);
    }
  }

  lemma RecordedModelKept(before: map<string, string>, mid: map<string, string>, after: map<string, string>, f: string, model: string)
    requires mid == before[f := model]
    requires KeepsModels(mid, after, model)
    ensures f in after && after[f] == model
  {
    assert f in mid;
  }

  lemma AllMappedFirst(files: seq<Upload>, m: map<string, string>, model: string)
    requires files != []
    requires files[0].filename in m && m[files[0].filename] == model
    requires forall i :: 0 <= i < |files[1..]| ==> files[1..][i].filename in m && m[files[1..][i].filename] == model
    ensures forall i :: 0 <= i < |files| ==> files[i].filename in m && m[files[i].filename] == model
  {
    forall i | 0 < i < |files|
      ensures files[i].filename in m && m[files[i].filename] == model
    {
      assert files[i] == files[1..][i - 1];
    }
  }

  // ---------------------------------------------------------------
  // Clearing the context
  // ---------------------------------------------------------------

  /**
    `clear_context`: the model map is cleared first; then every entry whose
    filename metadata is not "null" is deleted, unless that delete raises,
    in which case the collection is left as it was and the request fails.
   */
  function Reset(s: State, deleteRaises: bool): (r: Step<ClearError>)
    ensures r.state.filenameToModel == map[]
    ensures r.outcome.Pass? <==> !deleteRaises
    ensures deleteRaises ==> r.state.collection == s.collection
  {
    if deleteRaises then Step(State(s.collection, map[]), Fail(StoreDeleteFailed))
    else Step(State(DeleteWhereFilenameNotNull(s.collection), map[]), Pass)
  }

  /**
    After the context is cleared the model map is empty, only entries whose
    filename metadata is "null" remain, and so a query filtered on the name
    of any file an ingest can accept finds nothing.
   */
  lemma ResetClears(s: State, filename: string)
    requires Classify(filename).Success?
    ensures var after := Reset(s, false);
            && after.outcome == Pass
            && after.state.filenameToModel == map[]
            && (forall id :: id in after.state.collection ==> after.state.collection[id].filename == "null")
            && (forall id :: id in s.collection && s.collection[id].filename == "null" ==> id in after.state.collection)
            && WithFilename(after.state.collection, filename) == {}
  {
    NullUnsupported();
    NoneWithFilename(Reset(s, false).state.collection, filename);
  }

  /** "null" has no ".", so it is never the name of an accepted upload. */
  lemma NullUnsupported()
    ensures Classify("null").Failure?
  {
    NoDotUnsupported("null");
  }

  lemma NoneWithFilename(c: Collection, f: string)
    requires f != "null"
    requires forall id :: id in c ==> c[id].filename == "null"
    ensures WithFilename(c, f) == {}
  {
  }

  // ---------------------------------------------------------------
  // The invariant of the model map
  // ---------------------------------------------------------------

  /** Every filename with a recorded model names a file of a supported type. */
  predicate ModelKeysSupported(s: State) {
    forall f :: f in s.filenameToModel ==> Classify(f).Success?
  }

  lemma IngestKeepsModelKeysSupported(s: State, upload: Upload, model: string, services: IngestServices)
    requires ModelKeysSupported(s)
    ensures ModelKeysSupported(Ingest(s, upload, model, services).state)
  {
    IngestRecordsModel(s, upload, model, services);
    if Ingest(s, upload, model, services).outcome == Pass {
      IngestSuccessNeedsSupportedFile(s, upload, model, services);
    }
  }

  // ---------------------------------------------------------------
  // The server's state, updated in place
  // ---------------------------------------------------------------

  /** The global collection and `filename_to_model` dictionary, and the endpoints over them. */
  class RagServer {
    var collection: Collection
    var filenameToModel: map<string, string>
    /** The fixed wording of the prompts `generate_response` assembles. */
    const wording: Wording

    function Snapshot(): State
      reads this
    {
      State(collection, filenameToModel)
    }

    /** The server's invariant: every recorded filename names a file of a supported type. */
    ghost predicate Valid()
      reads this
    {
      ModelKeysSupported(Snapshot())
    }

    /** Startup: the persisted collection is reopened and the model map starts empty. */
    constructor (stored: Collection)
      ensures Snapshot() == State(stored, map[])
      ensures wording == BackendWording
      ensures Valid()
    {
      collection := stored;
      filenameToModel := map[];
      wording := BackendWording;
    }

    /** One iteration of the file loop of `process_files`. */
    method IngestFile(upload: Upload, model: string, services: IngestServices) returns (outcome: Outcome<IngestError>)
      requires Valid()
      modifies this
      ensures Step(Snapshot(), outcome) == Ingest(old(Snapshot()), upload, model, services)
      ensures Valid()
    {
      IngestKeepsModelKeysSupported(Snapshot(), upload, model, services);
      var extracted := ExtractTextFromFile(upload.filename, upload.library);
      if extracted.Failure? {
        return Fail(UnsupportedFile);
      }
      outcome := IngestExtracted(upload.filename, extracted.value, model, services);
    }

    /** The rest of that iteration, once the text is extracted. */
    method IngestExtracted(filename: string, docText: string, model: string, services: IngestServices) returns (outcome: Outcome<IngestError>)
      modifies this
      ensures Step(Snapshot(), outcome) == IngestText(old(Snapshot()), filename, docText, model, services)
    {
      if docText == [] {
        return Fail(NoTextExtracted);
      }
      var chunks := ChunkText(docText, ChunkSize, ChunkOverlap);
      var existingIds := ChunkIds(filename, |chunks|);
      if existingIds != [] && !services.deleteRaises(existingIds) {
        collection := DeleteIds(collection, existingIds);
      }
      ghost var cleared := collection;
      assert cleared == Cleared(old(collection), existingIds, services.deleteRaises);
      for i := 0 to |chunks|
        invariant AddChunks(collection, filename, chunks, services.embed, i) == AddChunks(cleared, filename, chunks, services.embed, 0)
        invariant filenameToModel == old(filenameToModel)
      {
        var embedding := services.embed(chunks[i]);
        if embedding.None? {
          return Fail(EmbeddingFailed);
        }
        collection := AddIfAbsent(collection, ChunkId(filename, i), Entry(embedding.value, chunks[i], filename));
      }
      filenameToModel := filenameToModel[filename := model];
      outcome := Pass;
    }

    /** `process_files`: ingest the files in order, stopping at the first that fails. */
    method ProcessFiles(files: seq<Upload>, model: string, services: IngestServices) returns (result: Result<seq<string>, IngestError>)
      requires Valid()
      modifies this
      ensures Reply(Snapshot(), result) == Process(old(Snapshot()), files, model, services)
      ensures Valid()
    {
      var filenames: seq<string> := [];
      assert files[0..] == files;
      PrefixedNothing(Process(Snapshot(), files, model, services));
      for i := 0 to |files|
        invariant Valid()
        invariant Process(old(Snapshot()), files, model, services) == Prefixed(filenames, Process(Snapshot(), files[i..], model, services))
      {
        ghost var before := Snapshot();
        assert files[i..][0] == files[i] && files[i..][1..] == files[i + 1..];
        var outcome := IngestFile(files[i], model, services);
        if outcome.Fail? {
          assert Process(before, files[i..], model, services) == Reply(Snapshot(), Failure(outcome.error));
          return Failure(outcome.error);
        }
        assert Process(before, files[i..], model, services) == Prefixed([files[i].filename], Process(Snapshot(), files[i + 1..], model, services));
        PrefixedTwice(filenames, [files[i].filename], Process(Snapshot(), files[i + 1..], model, services));
        filenames := filenames + [files[i].filename];
      }
      assert files[|files|..] == [];
      assert filenames + [] == filenames;
      result := Success(filenames);
    }

    /** `clear_context`: the model map is cleared, then the store's delete runs. */
    method ClearContext(deleteRaises: bool) returns (outcome: Outcome<ClearError>)
      requires Valid()
      modifies this
      ensures Step(Snapshot(), outcome) == Reset(old(Snapshot()), deleteRaises)
      ensures Valid()
    {
      filenameToModel := map[];
      if deleteRaises {
        return Fail(StoreDeleteFailed);
      }
      collection := DeleteWhereFilenameNotNull(collection);
      outcome := Pass;
    }

    /**
      `generate_response` against the current model map; it changes nothing.
      It fails exactly on the three fatal steps, and once the prompt is
      embedded and the document context retrieved it answers with the
      generation reply for the resolved model and the assembled prompt.
     */
    method GenerateResponse(request: AnswerRequest, services: AnswerServices) returns (r: Result<string, AnswerError>)
      ensures r.Failure? <==>
        || services.embed(request.prompt).None?
        || (QueriesStore(request) && services.query(services.embed(request.prompt).value, request.filename).QueryFailed?)
        || (var call := GenerationCall(wording, request, filenameToModel, services.embed(request.prompt).value, services);
            call.Success? && services.generate(call.value.0, call.value.1) == NoResponseField)
      ensures services.embed(request.prompt).Some?
              && DocumentContext(request, services.embed(request.prompt).value, services.query).Success? ==>
                var model := ResolveModel(request.model, request.filename, filenameToModel);
                var documentContext := DocumentContext(request, services.embed(request.prompt).value, services.query).value;
                r == OllamaReply(services.generate(model, FinalPrompt(wording, HistoryText(request.history),
                                                                      FinalContext(documentContext, WebContext(request, services.search)),
                                                                      model, request.prompt)))
    {
      r := Respond(wording, request, filenameToModel, services);
      RespondOutcome(wording, request, filenameToModel, services);
    }
  }
}
