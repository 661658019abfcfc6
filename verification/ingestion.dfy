/**
 * ingest_youtube_urls (backend/ingest.py): every URL goes through three
 * fallible stages (video metadata, transcript documents, the vector store)
 * and gets exactly one result record, classified by the stage that failed.
 *
 * The services are abstract: for each URL, what yt-dlp, the transcript fetch
 * and add_documents do, and whether recording a stage failure itself raises.
 */
module Ingestion {
  import opened Basics
  import opened Docs
  import opened VideoIds
  import opened Transcripts
  import opened Chunking
  import opened YoutubeDocs

  /** The error_type values of the result records. */
  datatype ErrorType = MetadataFetchFailed | NoTranscript | TranscriptFetchFailed | EmbeddingFailed | UnknownError

  /** The error_type string of a failure record. */
  function TypeName(t: ErrorType): string {
    match t
    case MetadataFetchFailed => "metadata_fetch_failed"
    case NoTranscript => "no_transcript"
    case TranscriptFetchFailed => "transcript_fetch_failed"
    case EmbeddingFailed => "embedding_failed"
    case UnknownError => "unknown_error"
  }

  /** The fixed error_details text that goes with each error_type. */
  function Details(t: ErrorType): string {
    match t
    case MetadataFetchFailed => "Failed to fetch video metadata. The video might be unavailable or restricted."
    case NoTranscript => "No transcript available for this video. It might be private, age-restricted, or have no captions."
    case TranscriptFetchFailed => "Failed to fetch video transcript. The video might be unavailable or have no captions."
    case EmbeddingFailed => "Failed to create embeddings. Check your OpenAI API key format in .env file."
    case UnknownError => "An unexpected error occurred during processing."
  }

  /**
   * One result record: status "ok" with the number of chunks stored, or status
   * "error" with the optional "error" field (str of the exception), the
   * error_type and the error_details.
   */
  datatype IngestResult =
    | Ok(url: string, chunks: nat)
    | Error(url: string, error: Option<string>, errorType: ErrorType)

  /** The "error_details" field of an error record: fixed by its error_type. */
  function ErrorDetails(r: IngestResult): string
    requires r.Error?
  {
    Details(r.errorType)
  }

  /** The "status" field: "ok" for an Ok record and "error" for an Error record. */
  function Status(r: IngestResult): (s: string)
    ensures s == "ok" <==> r.Ok?
    ensures s == "error" <==> r.Error?
  {
    if r.Ok? then "ok" else "error"
  }

  /** What _get_video_metadata keeps from yt-dlp: the video id and the title. */
  datatype VideoInfo = VideoInfo(videoId: string, title: string)

  /**
   * The behaviour of the outside world for one URL: what yt-dlp's extraction
   * does, what the transcript fetch does, whether add_documents raises (and
   * with what message), and whether recording a stage failure raises (and
   * with what message).
   */
  datatype UrlEnv = UrlEnv(
    ytdlp: Outcome<VideoInfo>,
    transcript: Outcome<seq<Document>>,
    store: Option<string>,
    handlerRaises: Option<string>)

  /** Step 1, _get_video_metadata: a URL without a video id is refused before yt-dlp is asked. */
  function MetadataStage(url: string, e: UrlEnv): Outcome<VideoInfo> {
    if ExtractVideoId(url).None? then Raised("Invalid YouTube URL format: " + url) else e.ytdlp
  }

  /** The URL gets as far as step 3: metadata, then a non-empty list of documents. */
  predicate ReachesStore(url: string, e: UrlEnv) {
    MetadataStage(url, e).Returned? && e.transcript.Returned? && e.transcript.value != []
  }

  /**
   * Recording a failure of type t: the record itself, or, when recording
   * raises, the outer handler's unknown_error record carrying that exception.
   */
  function Recorded(url: string, error: Option<string>, t: ErrorType, handlerRaises: Option<string>): (r: IngestResult)
    ensures r.Error? && r.url == url
    ensures handlerRaises.Some? ==> r.errorType == UnknownError && r.error == handlerRaises
    ensures handlerRaises.None? ==> r.errorType == t && r.error == error
  {
    match handlerRaises
    case Some(m) => Error(url, Some(m), UnknownError)
    case None => Error(url, error, t)
  }

  /** The result record of one URL. */
  function UrlResult(url: string, e: UrlEnv): (r: IngestResult)
    ensures r.url == url
    ensures r.Ok? <==> ReachesStore(url, e) && e.store.None?
    ensures r.Ok? ==> r.chunks == |e.transcript.value|
    ensures r.Error? && e.handlerRaises.Some? ==> r.errorType == UnknownError && r.error == e.handlerRaises
  {
    match MetadataStage(url, e)
    case Raised(m) => Recorded(url, Some(m), MetadataFetchFailed, e.handlerRaises)
    case Returned(_) =>
      match e.transcript
      case Raised(m) => Recorded(url, Some(m), TranscriptFetchFailed, e.handlerRaises)
      case Returned(docs) =>
        if docs == [] then Recorded(url, None, NoTranscript, e.handlerRaises)
        else if e.store.Some? then Recorded(url, e.store, EmbeddingFailed, e.handlerRaises)
        else Ok(url, |docs|)
  }

  /**
   * When recording a failure does not raise, the record names the stage that
   * failed first: metadata_fetch_failed with the metadata exception,
   * transcript_fetch_failed with the transcript exception, no_transcript (no
   * "error" field) for an empty document list, embedding_failed with the
   * store's exception; unknown_error does not occur.
   */
  lemma Classification(url: string, e: UrlEnv)
    requires e.handlerRaises.None?
    ensures MetadataStage(url, e).Raised? ==>
      UrlResult(url, e) == Error(url, Some(MetadataStage(url, e).message), MetadataFetchFailed)
    ensures MetadataStage(url, e).Returned? && e.transcript.Raised? ==>
      UrlResult(url, e) == Error(url, Some(e.transcript.message), TranscriptFetchFailed)
    ensures MetadataStage(url, e).Returned? && e.transcript == Returned([]) ==>
      UrlResult(url, e) == Error(url, None, NoTranscript)
    ensures ReachesStore(url, e) && e.store.Some? ==>
      UrlResult(url, e) == Error(url, e.store, EmbeddingFailed)
  {
  }

  /** The video id handed to the transcript fetch for this URL, if it gets that far. */
  function TranscriptCall(task: (string, UrlEnv)): seq<string> {
    var meta := MetadataStage(task.0, task.1);
    if meta.Returned? then [meta.value.videoId] else []
  }

  /** The documents handed to add_documents for this URL, if it gets that far. */
  function StoreCall(task: (string, UrlEnv)): seq<seq<Document>> {
    if ReachesStore(task.0, task.1) then [task.1.transcript.value] else []
  }

  /** Each URL paired with its own environment. */
  function Tasks(urls: seq<string>, env: nat -> UrlEnv): (ts: seq<(string, UrlEnv)>)
    ensures |ts| == |urls| && forall i :: 0 <= i < |urls| ==> ts[i] == (urls[i], env(i))
  {
    seq(|urls|, i requires 0 <= i < |urls| => (urls[i], env(i)))
  }

  /** The result list: one record per URL, in URL order. */
  function Results(urls: seq<string>, env: nat -> UrlEnv): (rs: seq<IngestResult>)
    ensures |rs| == |urls| && forall i :: 0 <= i < |urls| ==> rs[i] == UrlResult(urls[i], env(i))
  {
    seq(|urls|, i requires 0 <= i < |urls| => UrlResult(urls[i], env(i)))
  }

  /** The transcript fetches made, in order. */
  function TranscriptCalls(urls: seq<string>, env: nat -> UrlEnv): seq<string> {
    FlatMap(TranscriptCall, Tasks(urls, env))
  }

  /** The add_documents calls made, in order. */
  function StoreCalls(urls: seq<string>, env: nat -> UrlEnv): seq<seq<Document>> {
    FlatMap(StoreCall, Tasks(urls, env))
  }

  lemma TasksPrefix(urls: seq<string>, env: nat -> UrlEnv, i: nat)
    requires i < |urls|
    ensures Tasks(urls[..i + 1], env) == Tasks(urls[..i], env) + [(urls[i], env(i))]
    ensures Tasks(urls[..i + 1], env)[..i] == Tasks(urls[..i], env)
  {
  }

  /** One more URL adds its own record and its own calls at the end. */
  lemma IngestStep(urls: seq<string>, env: nat -> UrlEnv, i: nat)
    requires i < |urls|
    ensures Results(urls[..i + 1], env) == Results(urls[..i], env) + [UrlResult(urls[i], env(i))]
    ensures TranscriptCalls(urls[..i + 1], env) == TranscriptCalls(urls[..i], env) + TranscriptCall((urls[i], env(i)))
    ensures StoreCalls(urls[..i + 1], env) == StoreCalls(urls[..i], env) + StoreCall((urls[i], env(i)))
  {
    TasksPrefix(urls, env, i);
    var ts := Tasks(urls[..i + 1], env);
    assert ts[|ts| - 1] == (urls[i], env(i));
  }

  /**
   * The ingestion loop. It returns the result list, the video ids the
   * transcript fetch was called with and the document lists add_documents was
   * called with, all in call order.
   */
  method IngestYoutubeUrls(urls: seq<string>, env: nat -> UrlEnv)
    returns (results: seq<IngestResult>, fetched: seq<string>, stored: seq<seq<Document>>)
    ensures results == Results(urls, env)
    ensures fetched == TranscriptCalls(urls, env)
    ensures stored == StoreCalls(urls, env)
  {
    results, fetched, stored := [], [], [];
    for i := 0 to |urls|
      invariant results == Results(urls[..i], env)
      invariant fetched == TranscriptCalls(urls[..i], env)
      invariant stored == StoreCalls(urls[..i], env)
    {
      var url, e := urls[i], env(i);
      IngestStep(urls, env, i);
      // step 1: metadata
      var meta := MetadataStage(url, e);
      if meta.Raised? {
        results := results + [Recorded(url, Some(meta.message), MetadataFetchFailed, e.handlerRaises)];
        continue;
      }
      // step 2: transcript documents
      fetched := fetched + [meta.value.videoId];
      if e.transcript.Raised? {
        results := results + [Recorded(url, Some(e.transcript.message), TranscriptFetchFailed, e.handlerRaises)];
        continue;
      }
      var docs := e.transcript.value;
      if docs == [] {
        results := results + [Recorded(url, None, NoTranscript, e.handlerRaises)];
        continue;
      }
      // step 3: the vector store
      stored := stored + [docs];
      if e.store.Some? {
        results := results + [Recorded(url, e.store, EmbeddingFailed, e.handlerRaises)];
      } else {
        results := results + [Ok(url, |docs|)];
      }
    }
    assert urls[..|urls|] == urls;
  }

  // ---------------------------------------------------------------- properties

  /** One record per URL, in order, each carrying its own URL. */
  lemma ResultsPerUrl(urls: seq<string>, env: nat -> UrlEnv)
    ensures |Results(urls, env)| == |urls|
    ensures forall i :: 0 <= i < |urls| ==> Results(urls, env)[i].url == urls[i]
  {
  }

  /**
   * Isolation: the record of URL i depends only on that URL and its own
   * environment, whatever happens to the other URLs.
   */
  lemma Isolation(urls: seq<string>, env1: nat -> UrlEnv, env2: nat -> UrlEnv, i: nat)
    requires i < |urls| && env1(i) == env2(i)
    ensures Results(urls, env1)[i] == Results(urls, env2)[i]
  {
  }

  /**
   * A URL whose metadata fails is never handed to the transcript fetch or the
   * store; a URL whose transcript fetch fails or yields nothing is never
   * handed to the store; an "ok" URL's documents were stored, and its chunk
   * count is their number.
   */
  lemma StagesStopEarly(url: string, e: UrlEnv)
    ensures MetadataStage(url, e).Raised? ==> TranscriptCall((url, e)) == [] && StoreCall((url, e)) == []
    ensures e.transcript.Raised? || e.transcript == Returned([]) ==> StoreCall((url, e)) == []
    ensures UrlResult(url, e).Ok? ==> StoreCall((url, e)) == [e.transcript.value] && UrlResult(url, e).chunks == |e.transcript.value|
  {
  }

  /** A URL with no video id in it fails at step 1 with the "Invalid YouTube URL format" exception. */
  lemma InvalidUrlFailsMetadata(url: string, e: UrlEnv)
    requires forall i :: !IdStartsAt(url, i)
    requires e.handlerRaises == None
    ensures UrlResult(url, e) == Error(url, Some("Invalid YouTube URL format: " + url), MetadataFetchFailed)
    ensures TranscriptCall((url, e)) == [] && StoreCall((url, e)) == []
  {
    ExtractVideoIdLeftmost(url);
  }

  /** Whether a record says the URL reached add_documents, when recording failures never raises. */
  predicate ReportsStoreCall(r: IngestResult) {
    r.Ok? || r.errorType == EmbeddingFailed
  }

  function CountStoreReports(rs: seq<IngestResult>): nat {
    if rs == [] then 0 else CountStoreReports(rs[..|rs| - 1]) + (if ReportsStoreCall(rs[|rs| - 1]) then 1 else 0)
  }

  /**
   * When recording failures never raises, add_documents is called exactly as
   * many times as there are "ok" and embedding_failed records.
   */
  lemma {:induction false} StoreCallsMatchResults(urls: seq<string>, env: nat -> UrlEnv)
    requires forall i :: 0 <= i < |urls| ==> env(i).handlerRaises == None
    ensures |StoreCalls(urls, env)| == CountStoreReports(Results(urls, env))
    decreases |urls|
  {
    if urls != [] {
      var n := |urls| - 1;
      var front := urls[..n];
      StoreCallsMatchResults(front, env);
      TasksPrefix(urls, env, n);
      assert urls[..n + 1] == urls;
      assert StoreCalls(urls, env) == StoreCalls(front, env) + StoreCall((urls[n], env(n)));
      assert Results(urls, env)[..n] == Results(front, env);
    }
  }

  /**
   * With the transcript stage being the fetch of backend/yt.py, which turns
   * every failure into an empty list, transcript_fetch_failed never occurs,
   * and an "ok" record counts one chunk per piece of the chunk plan.
   */
  lemma YtFetcherNeverRaises(url: string, e: UrlEnv, listed: bool, service: Attempt -> FetchOutcome)
    requires MetadataStage(url, e).Returned?
    requires e.transcript == Returned(TranscriptDocuments(listed, service, url, MetadataStage(url, e).value.title))
    ensures UrlResult(url, e).Error? ==> UrlResult(url, e).errorType != TranscriptFetchFailed
    ensures UrlResult(url, e).Ok? ==> UrlResult(url, e).chunks == |Plan(Normalised(Acquire(listed, service).segments))|
  {
    TranscriptDocumentsShape(listed, service, url, MetadataStage(url, e).value.title);
  }
}
