/**
 The inputs a segment worker sees: source documents as yielded by a file segment, and
 the outcome of handing one of them to the document generator.
 */
module Documents {

  /** A generated Lucene document, reduced to its stored fields; the worker never inspects it. */
  datatype Document = Document(fields: seq<(string, string)>)

  /**
   What `LuceneDocumentGenerator.createDocument` does with one source document: it returns a
   document, throws one of the three classified exceptions, or throws anything else.
   */
  datatype Generation =
    | Generated(doc: Document)
    | EmptyDocument       // EmptyDocumentException
    | SkippedDocument     // SkippedDocumentException
    | InvalidDocument     // InvalidDocumentException
    | GeneratorFailure    // any other exception; it escapes the per-document loop

  /** A source document: its `indexable()` answer, its `id()`, and what the generator makes of it. */
  datatype SourceDocument = SourceDocument(indexable: bool, id: string, generation: Generation)

  /**
   A file segment: the documents it yields in order, then what it reports once iteration
   is over (`getSkippedCount()`, a Java int, and `getErrorStatus()`).
   */
  datatype Segment = Segment(docs: seq<SourceDocument>, skippedCount: int, errorStatus: bool)
}
