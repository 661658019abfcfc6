/**
 * _fetch_youtube_transcript_chunks (backend/yt.py) as a whole: acquire the
 * segments, normalise them, chunk the units and wrap each chunk in a Document
 * carrying the video's url, its title, the chunk's start and the source tag.
 */
module YoutubeDocs {
  import opened Basics
  import opened PyStr
  import opened Docs
  import opened Transcripts
  import opened Chunking

  /** The "source" metadata value of every transcript document. */
  const SourceTag: string := "youtube_api"

  /** The Document for one chunk of the video at url with the given title. */
  function DocumentOf(url: string, title: string, c: Chunk): Document {
    Document(c.content, Metadata(Some(url), Some(title), Some(c.start), Some(SourceTag)))
  }

  function Documents(url: string, title: string, chunks: seq<Chunk>): seq<Document> {
    seq(|chunks|, k requires 0 <= k < |chunks| => DocumentOf(url, title, chunks[k]))
  }

  /** The document loop: one Document per chunk, in chunk order. */
  method MakeDocuments(url: string, title: string, chunks: seq<Chunk>) returns (docs: seq<Document>)
    ensures docs == Documents(url, title, chunks)
  {
    docs := [];
    for i := 0 to |chunks|
      invariant docs == Documents(url, title, chunks[..i])
    {
      var c := chunks[i];
      docs := docs + [Document(c.content, Metadata(Some(url), Some(title), Some(c.start), Some(SourceTag)))];
    }
    assert chunks[..|chunks|] == chunks;
  }

  /** What the fetch returns for a video whose transcript service behaves as `service`. */
  function TranscriptDocuments(listed: bool, service: Attempt -> FetchOutcome, url: string, title: string): seq<Document> {
    var segments := Acquire(listed, service).segments;
    if segments == [] then [] else Documents(url, title, Chunks(Normalised(segments)))
  }

  /**
   * The whole fetch. Every failure inside it is caught and turned into an empty
   * result, so it has no error path of its own: an abandoned acquisition already
   * yields no segments.
   */
  method FetchTranscriptChunks(listed: bool, service: Attempt -> FetchOutcome, url: string, title: string)
    returns (docs: seq<Document>)
    ensures docs == TranscriptDocuments(listed, service, url, title)
  {
    var segments, calls := AcquireSegments(listed, service);
    if segments == [] {
      return [];
    }
    var sents := Normalise(segments);
    NormalisedTrimmed(segments);
    var chunks := ChunkUnits(sents);
    docs := MakeDocuments(url, title, chunks);
  }

  /**
   * The documents are the chunk plan of the normalised transcript, one per
   * piece and in order: the piece's content as page content, and as metadata
   * the url, the title, the piece's start and "youtube_api".
   */
  lemma TranscriptDocumentsShape(listed: bool, service: Attempt -> FetchOutcome, url: string, title: string)
    ensures var plan := Plan(Normalised(Acquire(listed, service).segments));
      var docs := TranscriptDocuments(listed, service, url, title);
      && |docs| == |plan|
      && forall k :: 0 <= k < |plan| ==>
        && docs[k].pageContent == Content(plan[k])
        && docs[k].metadata == Metadata(Some(url), Some(title), Some(plan[k].anchor), Some(SourceTag))
  {
    var segments := Acquire(listed, service).segments;
    if segments == [] {
      assert Normalised(segments) == [];
    } else {
      var plan := Plan(Normalised(segments));
      var chunks := ChunksOf(plan);
      assert TranscriptDocuments(listed, service, url, title) == Documents(url, title, chunks);
    }
  }

  /** There are no documents exactly when no acquired segment has non-blank text. */
  lemma TranscriptDocumentsEmpty(listed: bool, service: Attempt -> FetchOutcome, url: string, title: string)
    ensures var segments := Acquire(listed, service).segments;
      (TranscriptDocuments(listed, service, url, title) == [] <==>
        forall k :: 0 <= k < |segments| ==> SegmentText(segments[k]) == [])
  {
    var segments := Acquire(listed, service).segments;
    NormalisedEmpty(segments);
    if segments != [] {
      var plan := Plan(Normalised(segments));
      assert |TranscriptDocuments(listed, service, url, title)| == |ChunksOf(plan)| == |plan|;
    }
  }

  /**
   * Every document's start is the start of a unit of the transcript, and every
   * document's page content stays within 800 characters unless it holds a
   * single unit behind at most 120 characters of overlap.
   */
  lemma TranscriptDocumentsBounded(listed: bool, service: Attempt -> FetchOutcome, url: string, title: string)
    ensures var units := Normalised(Acquire(listed, service).segments);
      var plan := Plan(units);
      forall k :: 0 <= k < |plan| ==> SoftBound(plan[k])
    ensures var units := Normalised(Acquire(listed, service).segments);
      var docs := TranscriptDocuments(listed, service, url, title);
      forall k :: 0 <= k < |docs| ==> exists j :: 0 <= j < |units| && docs[k].metadata.startSeconds == Some(units[j].start)
  {
    var units := Normalised(Acquire(listed, service).segments);
    var plan := Plan(units);
    var docs := TranscriptDocuments(listed, service, url, title);
    PlanSoftBound(units);
    PlanCovers(units);
    TranscriptDocumentsShape(listed, service, url, title);
    forall k | 0 <= k < |docs|
      ensures exists j :: 0 <= j < |units| && docs[k].metadata.startSeconds == Some(units[j].start)
    {
      PieceInUnits(plan, k);
      var j :| 0 <= j < |FlatMap(BodyOf, plan)| && FlatMap(BodyOf, plan)[j] == plan[k].body[0];
      assert docs[k].metadata.startSeconds == Some(units[j].start);
    }
  }

  /** The first unit of any non-empty piece occurs in the concatenated bodies. */
  lemma {:induction false} PieceInUnits(plan: seq<Piece>, k: nat)
    requires k < |plan| && plan[k].body != []
    ensures exists j :: 0 <= j < |FlatMap(BodyOf, plan)| && FlatMap(BodyOf, plan)[j] == plan[k].body[0]
    decreases |plan|
  {
    var front := plan[..|plan| - 1];
    assert FlatMap(BodyOf, plan) == FlatMap(BodyOf, front) + plan[|plan| - 1].body;
    if k == |plan| - 1 {
      assert FlatMap(BodyOf, plan)[|FlatMap(BodyOf, front)|] == plan[k].body[0];
    } else {
      PieceInUnits(front, k);
      var j :| 0 <= j < |FlatMap(BodyOf, front)| && FlatMap(BodyOf, front)[j] == front[k].body[0];
      assert FlatMap(BodyOf, plan)[j] == plan[k].body[0];
    }
  }
}
