/** The documents handed to and returned by the vector store. */
module Docs {
  import opened Basics

  /**
   * A document's metadata dictionary, restricted to the keys the pipeline
   * reads or writes. A key that is absent, or present with the value None,
   * is None here; a metadata value of None as a whole is the all-None record.
   */
  datatype Metadata = Metadata(
    videoUrl: Option<string>,
    title: Option<string>,
    startSeconds: Option<int>,
    source: Option<string>)

  /** A stored document: its page content and its metadata. */
  datatype Document = Document(pageContent: string, metadata: Metadata)
}
