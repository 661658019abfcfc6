/**
 * The two endpoints of backend/main.py that shape results: /search maps the
 * store's (document, score) pairs to response items, and /ingest/youtube
 * turns the ingestion results into a response or a 400 rejection.
 *
 * The store's search and seconds_to_hms are parameters; scores are values of
 * an arbitrary type that is passed through unchanged.
 */
module Api {
  import opened Basics
  import opened Docs
  import opened Chunking
  import opened YoutubeDocs
  import opened Ingestion

  // ---------------------------------------------------------------- /search

  /** Content characters kept in a snippet. */
  const SnippetChars: nat := 400

  /** What marks a cut snippet. */
  const Ellipsis: string := "..."

  /** One SearchResponseItem; ai_response is left at its default None. */
  datatype SearchItem<S> = SearchItem(
    score: S,
    title: string,
    snippet: string,
    videoUrl: Option<string>,
    startSeconds: int,
    startHms: string,
    aiResponse: Option<string>)

  /** The response of /search: the query and the items. */
  datatype SearchResponse<S> = SearchResponse(query: string, results: seq<SearchItem<S>>)

  /** page_content[:400], followed by "..." when something was cut off. */
  function Snippet(content: string): (s: string)
    ensures |content| <= SnippetChars ==> s == content
    ensures |content| > SnippetChars ==> |s| == SnippetChars + |Ellipsis| && s[..SnippetChars] == content[..SnippetChars] && s[SnippetChars..] == Ellipsis
    ensures |s| <= SnippetChars + |Ellipsis|
  {
    if |content| <= SnippetChars then content else content[..SnippetChars] + Ellipsis
  }

  /** str(meta.get("title") or "Untitled"): a missing or empty title is replaced. */
  function TitleOf(m: Metadata): (t: string)
    ensures t != []
    ensures m.title.Some? && m.title.value != [] ==> t == m.title.value
    ensures m.title == None || m.title == Some([]) ==> t == "Untitled"
  {
    if m.title.Some? && m.title.value != [] then m.title.value else "Untitled"
  }

  /** int(meta.get("start_seconds") or 0): a missing start reads as 0. */
  function StartOf(m: Metadata): (n: int)
    ensures m.startSeconds.Some? ==> n == m.startSeconds.value
    ensures m.startSeconds.None? ==> n == 0
  {
    if m.startSeconds.Some? && m.startSeconds.value != 0 then m.startSeconds.value else 0
  }

  /** The item for one (document, score) pair. */
  function ItemOf<S>(pair: (Document, S), hms: int -> string): SearchItem<S> {
    var (doc, score) := pair;
    var start := StartOf(doc.metadata);
    SearchItem(score, TitleOf(doc.metadata), Snippet(doc.pageContent), doc.metadata.videoUrl, start, hms(start), None)
  }

  function Items<S>(pairs: seq<(Document, S)>, hms: int -> string): seq<SearchItem<S>> {
    seq(|pairs|, k requires 0 <= k < |pairs| => ItemOf(pairs[k], hms))
  }

  /** The result loop of /search over the pairs the store returned for the query. */
  method Search<S>(q: string, pairs: seq<(Document, S)>, hms: int -> string) returns (response: SearchResponse<S>)
    ensures response == SearchResponse(q, Items(pairs, hms))
  {
    var results: seq<SearchItem<S>> := [];
    for i := 0 to |pairs|
      invariant results == Items(pairs[..i], hms)
    {
      var (doc, score) := pairs[i];
      var meta := doc.metadata;
      var title := if meta.title.Some? && meta.title.value != [] then meta.title.value else "Untitled";
      var videoUrl := meta.videoUrl;
      var startSeconds := if meta.startSeconds.Some? && meta.startSeconds.value != 0 then meta.startSeconds.value else 0;
      var snippet := if |doc.pageContent| > SnippetChars then doc.pageContent[..SnippetChars] + Ellipsis else doc.pageContent;
      results := results + [SearchItem(score, title, snippet, videoUrl, startSeconds, hms(startSeconds), None)];
    }
    assert pairs[..|pairs|] == pairs;
    response := SearchResponse(q, results);
  }

  /**
   * One item per pair, in order: the pair's score, the document's url, its
   * title or "Untitled", its content cut at 400 characters, and its start (0
   * when missing) with the h:m:s rendering of that start.
   */
  lemma ItemsFollowPairs<S>(pairs: seq<(Document, S)>, hms: int -> string)
    ensures |Items(pairs, hms)| == |pairs|
    ensures forall k :: 0 <= k < |pairs| ==>
      var item := Items(pairs, hms)[k];
      && item.score == pairs[k].1
      && item.videoUrl == pairs[k].0.metadata.videoUrl
      && item.title == TitleOf(pairs[k].0.metadata)
      && item.title != []
      && item.snippet == Snippet(pairs[k].0.pageContent)
      && |item.snippet| <= SnippetChars + |Ellipsis|
      && item.startSeconds == StartOf(pairs[k].0.metadata)
      && item.startHms == hms(item.startSeconds)
      && item.aiResponse == None
  {
  }

  /**
   * A transcript document comes back from /search with its video url, its
   * title (or "Untitled" when the title is empty), the chunk's start and the
   * chunk's content, cut at 400 characters.
   */
  lemma TranscriptDocumentItem<S>(url: string, title: string, c: Chunk, score: S, hms: int -> string)
    ensures var item := ItemOf((DocumentOf(url, title, c), score), hms);
      && item.videoUrl == Some(url)
      && item.title == (if title == [] then "Untitled" else title)
      && item.startSeconds == c.start
      && (|c.content| <= SnippetChars ==> item.snippet == c.content)
      && (|c.content| > SnippetChars ==> item.snippet == c.content[..SnippetChars] + Ellipsis)
  {
  }

  // ---------------------------------------------------------------- /ingest/youtube

  /** One entry of the rejection's "errors" list. */
  datatype ErrorEntry = ErrorEntry(url: string, errorType: string, errorDetails: string)

  /** {"results": results}, or the 400 rejection with its message, errors and results. */
  datatype IngestResponse =
    | Accepted(results: seq<IngestResult>)
    | Rejected(statusCode: nat, message: string, errors: seq<ErrorEntry>, results: seq<IngestResult>)

  const RejectionMessage: string := "Failed to process all YouTube URLs"

  /** The number of records whose status is "ok" (by Status, exactly the Ok records): zero iff none is. */
  function SuccessCount(results: seq<IngestResult>): (n: nat)
    ensures n <= |results|
    ensures n == 0 <==> forall k :: 0 <= k < |results| ==> results[k].Error?
    decreases |results|
  {
    if results == [] then 0
    else
      var front := results[..|results| - 1];
      assert forall k :: 0 <= k < |front| ==> front[k] == results[k];
      SuccessCount(front) + (if results[|results| - 1].Ok? then 1 else 0)
  }

  /** The entry of a record whose status is "error" (none for an "ok" record). */
  function EntryOf(r: IngestResult): seq<ErrorEntry> {
    if r.Error? then [ErrorEntry(r.url, TypeName(r.errorType), ErrorDetails(r))] else []
  }

  /** The "errors" list: an entry for each error record, in order. */
  function ErrorEntries(results: seq<IngestResult>): seq<ErrorEntry> {
    FlatMap(EntryOf, results)
  }

  /** The decision of /ingest/youtube for urlCount URLs and their results. */
  function IngestResponseOf(urlCount: nat, results: seq<IngestResult>): IngestResponse {
    if SuccessCount(results) == 0 && urlCount > 0 then
      Rejected(400, RejectionMessage, ErrorEntries(results), results)
    else
      Accepted(results)
  }

  /** The endpoint: ingest the URLs, then decide. */
  method IngestYoutube(urls: seq<string>, env: nat -> UrlEnv) returns (response: IngestResponse)
    ensures response == IngestResponseOf(|urls|, Results(urls, env))
  {
    var results, fetched, stored := IngestYoutubeUrls(urls, env);
    var successCount := SuccessCount(results);
    if successCount == 0 && |urls| > 0 {
      var errorDetails := ErrorEntries(results);
      return Rejected(400, RejectionMessage, errorDetails, results);
    }
    return Accepted(results);
  }

  /**
   * When no record is "ok", the errors list has one entry per record, in
   * order, each with the record's url, error_type and error_details.
   */
  lemma AllErrorsListed(results: seq<IngestResult>)
    requires forall k :: 0 <= k < |results| ==> results[k].Error?
    ensures |ErrorEntries(results)| == |results|
    ensures forall k :: 0 <= k < |results| ==>
      ErrorEntries(results)[k] == ErrorEntry(results[k].url, TypeName(results[k].errorType), ErrorDetails(results[k]))
  {
    FlatMapSingletons(EntryOf, results);
  }

  /**
   * The batch is rejected with 400 exactly when at least one URL was given and
   * no record is "ok"; the rejection lists every record as an error entry in
   * order. Otherwise the results come back unchanged.
   */
  lemma IngestDecision(urlCount: nat, results: seq<IngestResult>)
    ensures IngestResponseOf(urlCount, results).Rejected? <==>
      urlCount > 0 && forall k :: 0 <= k < |results| ==> results[k].Error?
    ensures IngestResponseOf(urlCount, results).Rejected? ==>
      && IngestResponseOf(urlCount, results).statusCode == 400
      && |IngestResponseOf(urlCount, results).errors| == |results|
      && forall k :: 0 <= k < |results| ==>
        IngestResponseOf(urlCount, results).errors[k] ==
          ErrorEntry(results[k].url, TypeName(results[k].errorType), ErrorDetails(results[k]))
    ensures IngestResponseOf(urlCount, results).Accepted? ==> IngestResponseOf(urlCount, results).results == results
  {
    if IngestResponseOf(urlCount, results).Rejected? {
      AllErrorsListed(results);
    }
  }

  /**
   * End to end: a non-empty batch is rejected exactly when no URL got through
   * all three stages; an empty batch is always accepted.
   */
  lemma IngestYoutubeRejects(urls: seq<string>, env: nat -> UrlEnv)
    ensures IngestResponseOf(|urls|, Results(urls, env)).Rejected? <==>
      urls != [] && forall i :: 0 <= i < |urls| ==> !(ReachesStore(urls[i], env(i)) && env(i).store.None?)
  {
    var results := Results(urls, env);
    IngestDecision(|urls|, results);
    assert forall i :: 0 <= i < |urls| ==> (results[i].Ok? <==> ReachesStore(urls[i], env(i)) && env(i).store.None?);
  }
}
