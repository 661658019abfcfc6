# podcast-rag ingestion core in Dafny

This project models the deterministic core of the podcast-rag backend. That backend turns YouTube
videos into searchable transcript chunks and answers searches with timestamped snippets. The modelled parts are:

- **Video-id extraction** (`extract_video_id`): the regex search `(?:v=|/)([0-9A-Za-z_-]{11})`,
  modelled as a leftmost scan over the URL (`video_id.dfy`, module `VideoIds`).
- **Transcript acquisition and normalisation** (`_fetch_youtube_transcript_chunks`, first half).
  - The fallback order is: auto-generated English, any English, then direct fetches with `["en"]`,
    `["en-US"]`, `["en-GB"]`, `["auto"]`.
  - Each segment is stripped, and segments whose stripped text is empty are dropped (`transcripts.dfy`,
    module `Transcripts`).
  - Python's `str.isspace`, `strip`, `lstrip`, `rstrip`, `s[-n:]` and `" ".join` are in `pystr.dfy`
    (module `PyStr`).
- **The chunker** (`push_chunk` and the chunking loop).
  - The loop is an imperative method, proved equal to a specification.
  - The specification is a greedy *plan* of pieces. Each piece has an anchor, an optional overlap prefix
    and a body of units. The plan is built by a generic greedy packer, whose structural lemmas are proved
    once (`chunking.dfy`, module `Chunking`).
- **Document construction and the whole fetch**: one `Document` per chunk, with metadata
  `video_url`, `title`, `start_seconds` and `source = "youtube_api"` (`youtube_docs.dfy`, module
  `YoutubeDocs`; the record types are in `docs.dfy`, module `Docs`).
- **Per-URL ingestion** (`ingest_youtube_urls`): three fallible stages per URL and one classified
  record per URL, plus the calls made to the transcript fetch and to `add_documents`
  (`ingestion.dfy`, module `Ingestion`).
- **The API layer** (`search` result mapping, `ingest_youtube` all-failed decision): snippet, title and
  start defaults, and the 400 rejection with its `errors` list (`api.dfy`, module `Api`).

External services are inputs:
- the transcript service is a function from attempts to outcomes, plus whether listing succeeded;
- yt-dlp, the transcript stage, the vector store and the failure handlers of ingestion are per-URL
  outcomes;
- the store's search results and `seconds_to_hms` are parameters.

Behaviour of the code worth knowing:
- **The overlap is left-stripped.** The code strips `f"{tail} {text}"` as a whole. So the overlap is
  the previous chunk's last 120 characters *with leading whitespace removed*
  (`Chunking.RolloverText`, `Chunking.PlanBoundaries`). It is still a suffix of the previous content
  (`Chunking.PlanOverlapSuffix`).
- **The 800-character bound is soft, and not only for an oversized unit.**
  - A new chunk opens with overlap + space + unit and is never checked against 800. So a unit of 750
    characters gives a chunk of 871 (`Chunking.OverlapCanExceedMax`).
  - The exact bound proved is: at most 800 characters, or a single unit behind at most 121 characters
    (`Chunking.PlanSoftBound`).
  - A later unit larger than 800 characters still gets an overlap prefix.
- **An empty auto-generated transcript ends the listing phase.** If `find_generated_transcript(['en'])`
  returns an empty list without raising, `find_transcript(['en'])` is never tried
  (`Transcripts.EmptyGeneratedSkipsAnyEnglish`).
- **The direct loop stops at the first fetch that returns.** It does so even when the fetch returns
  an empty list. Any exception other than a missing transcript abandons the whole fetch with `[]`
  (`Transcripts.FailedDirectAborts`).
- **`unknown_error` comes only from a failing failure handler.** Every stage has its own handler.
  `unknown_error` is recorded only when an exception escapes one of those handlers, i.e. when recording
  a stage failure itself raises (`UrlEnv.handlerRaises`). With the transcript stage being the fetch of
  `backend/yt.py`, which swallows every exception, `transcript_fetch_failed` cannot occur
  (`Ingestion.YtFetcherNeverRaises`).
- **The `else 0` fallback of `push_chunk` never fires.** The loop invariant of `Chunking.ChunkUnits`
  keeps `cur_start` set whenever `cur_text` is non-empty.
- **The `.get` defaults in the errors list never fire.** The `"Unknown URL"`, `"unknown_error"` and
  `"Unknown error"` defaults of the `errors` comprehension cannot apply, because every error record has
  all three keys. The model reads the fields directly (`Api.ErrorEntries`).

## Model

| member | source | states |
|---|---|---|
| VideoIds.ExtractVideoId | backend/yt.py:9-21 | an id, when one is returned, is exactly 11 characters of `[0-9A-Za-z_-]` |
| VideoIds.SearchFrom | backend/yt.py:13-14 | a search from any position yields either nothing or 11 id characters |
| VideoIds.SearchFromLeftmost | backend/yt.py:13-14 | the search from m yields nothing iff no match starts at or after m, otherwise the group of the leftmost match start |
| VideoIds.MatchStartsAndIds | backend/yt.py:9 | a match start of either alternative gives an id position two or one characters later, and every id position comes from such a start |
| VideoIds.ExtractVideoIdLeftmost | backend/yt.py:9-21 | None iff no position holds 11 id characters preceded by `v=` or `/`; otherwise the 11 characters at the leftmost such position |
| PyStr.Strip | backend/yt.py:143 | the stripped text is empty or has no whitespace at either end; it is empty iff every character is whitespace; stripped text is unchanged by stripping |
| PyStr.StripIsInfix | backend/yt.py:143 | the stripped text is s with its leading and trailing whitespace removed: a contiguous part of s with only whitespace before and after it |
| PyStr.Tail | backend/yt.py:175 | `s[-n:]` has length min(n, len(s)) and is a suffix of s |
| PyStr.StripJoined | backend/yt.py:176 | stripping `tail + " " + text` for a stripped text and a tail ending in a non-space equals left-stripping the tail, then the space and the text |
| Transcripts.NormaliseOne | backend/yt.py:142-146 | a segment gives at most one unit, none iff its stripped text is empty; the unit has the segment's start and its stripped, non-blank text |
| Transcripts.Normalise | backend/yt.py:141-146 | the normalisation loop computes each segment's contribution concatenated in input order |
| Transcripts.NormalisedAt | backend/yt.py:141-146 | every segment contributes its own unit (or nothing) at its own place: nothing is reordered, merged or invented |
| Transcripts.NormalisedTrimmed | backend/yt.py:143-146 | every unit's text is non-empty and stripped |
| Transcripts.NormalisedEmpty | backend/yt.py:141-146 | no units come out exactly when every segment's stripped text is empty |
| Transcripts.ListAttempts | backend/yt.py:82-110 | the nested fallbacks of the listing phase make the calls and obtain the segments of the listing-phase specification |
| Transcripts.DirectAttemptsLoop | backend/yt.py:113-133 | the direct loop (stop at the first fetch that returns, continue on a missing transcript, abort on any other exception) makes the calls and obtains the segments of the direct-phase specification |
| Transcripts.AcquireSegments | backend/yt.py:76-137 | the listing phase followed, when it obtained nothing, by the direct loop gives the acquisition specification's segments and calls |
| Transcripts.DirectPhaseIsFirstSuccess | backend/yt.py:113-133 | for a service that only returns non-empty lists or raises a missing-transcript error, the direct loop is "first success" over the language lists |
| Transcripts.AcquireIsFirstSuccess | backend/yt.py:82-133 | for such a service, acquisition tries auto-generated English, any English, then en, en-US, en-GB, auto, and stops at the first non-empty segment list |
| Transcripts.DirectPhaseFromLastCall | backend/yt.py:114-133 | the direct calls are a prefix of the language lists in order; all but the last reported a missing transcript; segments come from the last call |
| Transcripts.AcquireShape | backend/yt.py:82-137 | for any service: non-empty segments come from the last call made, and no earlier call yielded segments |
| Transcripts.AcquireCallOrder | backend/yt.py:82-137 | for any service: the calls are a prefix of (auto-generated English, any English), made iff listing succeeded, followed by a prefix of the direct language lists in order |
| Transcripts.ListPhaseIsFirstSuccess | backend/yt.py:82-110 | for a well-behaved service the listing phase is "first success" over auto-generated English and any English |
| Transcripts.FirstSuccessAppend | backend/yt.py:82-133 | trying one list of attempts and then another is "first success" over both, and a list that yields nothing was tried in full |
| Transcripts.EmptyGeneratedSkipsAnyEnglish | backend/yt.py:87-95 | an empty auto-generated transcript keeps `find_transcript(['en'])` from being tried |
| Transcripts.FailedDirectAborts | backend/yt.py:115-133 | an unexpected exception from the first direct fetch ends acquisition with no segments |
| Chunking.PushChunk | backend/yt.py:163-165 | nothing is appended for empty text; a stripped text with a start is appended as it is, with that start |
| Chunking.RolloverText | backend/yt.py:175-176 | the text after a rollover is the content of the next piece: the left-stripped last 120 characters, a space, the unit's text |
| Chunking.ChunkUnits | backend/yt.py:155-179 | for normalised units the chunking loop yields, in order, one chunk per plan piece: its anchor and its content |
| Chunking.Plan | backend/yt.py:167-179 | there are no chunks iff there are no units |
| Chunking.PlanCovers | backend/yt.py:167-179 | the piece bodies concatenated are exactly the units (each unit in exactly one piece, in order); each piece is anchored at its first unit's start |
| Chunking.PlanBoundaries | backend/yt.py:168-177 | the first chunk has no overlap and the first unit's start; every later chunk opens with a unit that did not fit, is anchored at its start, and carries the left-stripped last 120 characters of its predecessor |
| Chunking.PlanSoftBound | backend/yt.py:171-177 | every chunk has at most 800 characters, or holds a single unit behind at most 120 characters of overlap and a space |
| Chunking.PlanSorted | backend/yt.py:168-177 | chunk anchors never decrease when unit starts never decrease |
| Chunking.PlanNoLoss | backend/yt.py:167-179 | the chunk bodies, without overlaps, joined by spaces equal the unit texts joined by spaces |
| Chunking.OverlapShape | backend/yt.py:175-176 | the overlap taken from a text ending in a non-space is a non-empty stripped suffix of at most 120 characters |
| Chunking.PlanOverlapSuffix | backend/yt.py:174-176 | for normalised units every overlap is a non-empty stripped suffix, of at most 120 characters, of the previous chunk's content |
| Chunking.OverlapCanExceedMax | backend/yt.py:171-177 | a 120-character unit followed by a 750-character unit gives two chunks, the second of 871 characters |
| YoutubeDocs.MakeDocuments | backend/yt.py:183-193 | the document loop builds one document per chunk, in order |
| YoutubeDocs.FetchTranscriptChunks | backend/yt.py:71-207 | the fetch composes acquisition, normalisation, chunking and document construction, and returns no documents when no segments were obtained |
| YoutubeDocs.TranscriptDocumentsShape | backend/yt.py:135-193 | one document per chunk, in order, with the chunk's content and metadata url, title, the chunk's anchor and `youtube_api` |
| YoutubeDocs.TranscriptDocumentsEmpty | backend/yt.py:135-193 | there are no documents iff no acquired segment has non-blank text |
| YoutubeDocs.TranscriptDocumentsBounded | backend/yt.py:167-193 | every document's start is some unit's start, and every chunk obeys the soft 800-character bound |
| Ingestion.Status | backend/ingest.py:26-104 | the status is `ok` exactly for success records and `error` exactly for failure records |
| Ingestion.Recorded | backend/ingest.py:95-104 | a failure record carries its URL, its error type and message; when recording raises, the record is `unknown_error` with that exception's message |
| Ingestion.UrlResult | backend/ingest.py:26-104 | the record carries its URL; it is `ok` iff metadata, a non-empty transcript and the store all succeed, with the document count as `chunks`; when recording raises, an error record is `unknown_error` with that message |
| Ingestion.Classification | backend/ingest.py:28-94 | a metadata exception gives `metadata_fetch_failed`, a transcript exception `transcript_fetch_failed`, no documents `no_transcript` without an `error` field, a store exception `embedding_failed`, each with the exception's message |
| Ingestion.IngestYoutubeUrls | backend/ingest.py:18-110 | the loop returns one record per URL in order, and calls the transcript fetch and `add_documents` exactly for the URLs that reach those stages, in URL order |
| Ingestion.ResultsPerUrl | backend/ingest.py:24-104 | exactly one record per input URL, in order, entry i carrying `urls[i]` |
| Ingestion.Isolation | backend/ingest.py:24-104 | a URL's record depends only on that URL and its own stage outcomes |
| Ingestion.StagesStopEarly | backend/ingest.py:42-84 | a metadata failure skips the transcript fetch and the store; a failed or empty transcript skips the store; an `ok` URL's documents were stored and counted |
| Ingestion.InvalidUrlFailsMetadata | backend/yt.py:29-34 | a URL without a video id fails at the metadata stage with the "Invalid YouTube URL format" exception and reaches no later stage |
| Ingestion.StoreCallsMatchResults | backend/ingest.py:80-94 | when recording never raises, `add_documents` is called once for each `ok` or `embedding_failed` record |
| Ingestion.YtFetcherNeverRaises | backend/ingest.py:45-77 | with the transcript fetch of `backend/yt.py`, `transcript_fetch_failed` never occurs and `chunks` is the number of chunks of the transcript |
| Api.Snippet | backend/main.py:126 | content of at most 400 characters is kept as it is; longer content gives its first 400 characters plus `...`; at most 403 characters |
| Api.TitleOf | backend/main.py:118 | the title is never empty; a missing or empty title becomes `Untitled` |
| Api.StartOf | backend/main.py:120 | a missing `start_seconds` becomes 0, a present one is kept |
| Api.Search | backend/main.py:115-138 | the result loop returns the query and one item per pair, in order |
| Api.ItemsFollowPairs | backend/main.py:116-131 | one item per pair, in order, with the pair's score, the document's url, its title or `Untitled`, its content cut at 400 characters (at most 403 with `...`), its start or 0, the h:m:s of that start, and no AI response |
| Api.TranscriptDocumentItem | backend/main.py:117-126 | a transcript document comes back with its url, its title (or `Untitled`), its chunk's start and its content cut at 400 characters |
| Api.SuccessCount | backend/main.py:66-79 | the success count never exceeds the number of records, and it is zero iff no record is `ok` |
| Api.AllErrorsListed | backend/main.py:80-87 | when no record is `ok`, the errors list has one entry per record, in order, with its url, error type and details |
| Api.IngestDecision | backend/main.py:79-98 | a 400 rejection iff at least one URL was given and no record is `ok`, listing every record as an error; otherwise the results unchanged |
| Api.IngestYoutube | backend/main.py:62-98 | the endpoint ingests the URLs and returns the decision on their records |
| Api.IngestYoutubeRejects | backend/main.py:63-98 | a batch is rejected iff it is non-empty and no URL got through all three stages; an empty batch is accepted |

## Left out

- **Float handling.** `int(float(s.get("start", 0)))` and `float(score)` are not modelled. A segment's
  start is taken as the already-truncated whole number, and scores are opaque values passed through.
  A segment whose start or text cannot be converted would raise inside the fetch, which then returns
  `[]`. That path is not modelled.
- **Missing keys and metadata values.**
  - A missing `"text"` or `"start"` key reads as its default, so the model does not tell it apart from
    the default value.
  - A document whose metadata is `None` reads as all-None metadata.
  - Non-string titles are not modelled.
- **yt-dlp.** `_get_video_metadata` beyond its video-id check is an abstract outcome, the video id and
  title or an exception. The duration is only logged and is not kept.
- **The vector store and the agent.** `add_documents` and `search` of backend/store.py, and
  backend/agent.py, are not part of this model. The store appears only as "returns or raises" and as
  the list of pairs a search returns.
- **`seconds_to_hms`.** It is imported from backend/utils, which is not part of this model, and is a
  parameter.
- **Logging and `DEBUG_LOGGING`.** These branches have no effect on results and are not modelled.
  Exceptions from logging calls inside a stage's `try` are not modelled apart from the failure
  handlers (`UrlEnv.handlerRaises`).
- **Transcript types.** The computation of the transcript type in the direct loop only feeds a log
  line.
- **Exceptions propagating out of `ingest_youtube`.** An exception escaping the outer handler of
  `ingest_youtube_urls`, or raised by `ingest_youtube` itself, is not modelled. Neither are FastAPI
  plumbing, CORS, timing, the frontend, document/markdown ingestion and reranking.
- **Transcripts.FailedDirectAborts:** stated only for the first direct fetch. The same holds for any
  later one after missing transcripts, as `Transcripts.DirectPhaseFromLastCall` implies.
- **Ingestion.Recorded:** models a failure handler that raises as raising on every attempt. That is
  why `no_transcript`, whose handler sits inside the transcript stage's `try`, also ends in
  `unknown_error`.
