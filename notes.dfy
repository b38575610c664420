/** The sticky-note record produced by the response parser and stamped by the upload path. */
module Notes {
  import opened Wrappers

  /**
   * The identifier and creation time the parser gives a note. The source
   * builds them from the clock and a random suffix; here they are opaque
   * values supplied from outside.
   */
  datatype Stamp = Stamp(id: string, timestamp: string)

  /**
   * A sticky note. `documentId` is `None` until the upload path writes it:
   * the parser creates notes without that property.
   */
  datatype NoteRecord = NoteRecord(
    id: string,
    source: string,
    content: string,
    insight: string,
    documentName: string,
    timestamp: string,
    documentId: Option<string>)

  /** `b` agrees with `a` on every property except, possibly, `documentId`. */
  predicate SameExceptDocumentId(a: NoteRecord, b: NoteRecord)
  {
    && a.id == b.id
    && a.source == b.source
    && a.content == b.content
    && a.insight == b.insight
    && a.documentName == b.documentName
    && a.timestamp == b.timestamp
  }
}
