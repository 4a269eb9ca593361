# Anserini `IndexCollection`: a Dafny model of the indexing pipeline

This project models the core of Anserini's `IndexCollection`, the tool that builds a
Lucene index from a document collection. The collection is split into file segments. One
task per segment (`LocalIndexerThread`) streams its documents through a document
generator and a chain of filters into a shared `IndexWriter`. Each task adds what it saw
to five run-wide counters: indexed, unindexable, empty, skipped and errors. After the
pool drains, `run()` checks that every task completed. It then commits, optionally merges
the index into one segment, and closes the writer.

The model is split into modules that follow the program:

- `Documents` (documents.dfy) holds source documents, the generator's verdict and file segments.
- `CounterAggregate` (counters.dfy) holds the five counters and their sum over segments.
- `Sink` (sink.dfy) holds the writer as an ordered list of live entries. `addDocument`
  appends. `updateDocument` deletes every entry with the same id, then appends.
- `SegmentWorker` (segment_worker.dfy) holds the per-segment task. It is written twice:
  - `IndexSegment` is the loop as the source writes it, with its 10,000-document batch flush.
  - `RunSegment` is a fold over the documents.

  Lemmas tie both to a document-by-document reference (`CountFate`, `Writes`).
- `Coordinator` (coordinator.dfy) holds the similarity choice, segment selection, the
  completion gate, the commit/merge/close order, and the run as a fold over its segments.
- `InputPath` (input_path.dfy) holds the `/path/to` → `collections` rewrite of the input path.
- `Scenarios` (scenarios.dfy) works two small runs through end to end.

The thread pool is replaced by a fold over segments. Workers change the shared counters
only by atomic adds, so a run's totals are the sum of the per-segment deltas.
`SumIsOrderIndependent` proves that this sum does not depend on the order of the segments.

The generator's verdict has a fifth case, `GeneratorFailure`. It stands for any exception
other than the three classified ones, which escapes to the task's `catch (Exception e)`.
The model keeps the source's behaviour here:
- the rest of the segment is never read;
- the writes of the unflushed batch (fewer than 10,000) never reach `indexed`;
- the segment's skip count and error flag are ignored.

`AbortedSegment` states this exactly.

## Model

| member | source | states |
|---|---|---|
| SegmentWorker.IndexSegment | src/main/java/io/anserini/index/IndexCollection.java:241-324 | The loop with its batch counter computes exactly the segment's fold. Its invariants keep `0 <= batch < 10000`, keep the published count plus `batch` equal to `cnt`, and keep every published amount a whole number of batches. |
| SegmentWorker.FateOf | src/main/java/io/anserini/index/IndexCollection.java:257-280 | A document is written if and only if it is indexable, the generator produced a document, and its id passes the whitelist. It is skipped for the whitelist if and only if it was generated but its id fails the whitelist. |
| SegmentWorker.FateOfCases | src/main/java/io/anserini/index/IndexCollection.java:257-276 | Every other fate is fixed by the document alone. A document that is not indexable is counted as unindexable, whatever the generator would say. An indexable one is counted as empty, skipped, invalid or aborting exactly when the generator returned that verdict. |
| SegmentWorker.WriteFor | src/main/java/io/anserini/index/IndexCollection.java:282-286 | An accepted document becomes an `updateDocument` keyed by its id exactly in `-uniqueDocid` mode, and an `addDocument` otherwise. The call carries the document's id and its generated document. |
| SegmentWorker.RunSegment | src/main/java/io/anserini/index/IndexCollection.java:257-322 | One task's contribution, as a fold over the segment. There is at most one writer call per document. `indexed` never exceeds the writer calls and falls short of them by less than one batch. Without an unexpected failure it equals them. `SegmentAccounting` and `AbortedSegment` give every counter. |
| SegmentWorker.Flushed | src/main/java/io/anserini/index/IndexCollection.java:287-298 | The published part of `n` writes is a whole number of batches, at most `n`, and short of `n` by less than one batch. |
| SegmentWorker.ScanMatchesTally | src/main/java/io/anserini/index/IndexCollection.java:257-295 | Without an unexpected generator failure, the loop counts each document under its own fate and writes exactly the accepted documents, in order. |
| SegmentWorker.FatesPartition | src/main/java/io/anserini/index/IndexCollection.java:257-286 | Every document meets exactly one fate, so the fates' counts add up to the number of documents. |
| SegmentWorker.WritesAreAccepted | src/main/java/io/anserini/index/IndexCollection.java:258-286 | Every writer call comes from an indexable document that the generator accepted and whose id passes the whitelist. Each call is an update exactly in unique-docid mode. There is one call per accepted document. |
| SegmentWorker.SegmentAccounting | src/main/java/io/anserini/index/IndexCollection.java:257-312 | Each rejection is counted once, under its own counter, and never reaches the writer. `indexed` grows by exactly the number of writer calls. `skipped` also grows by the segment's skip count only when that count is positive. `errors` grows by one more exactly when the segment reports an error. In total the counters grow by the number of documents plus those two additions. |
| SegmentWorker.AbortedSegment | src/main/java/io/anserini/index/IndexCollection.java:257-322 | When the generator fails unexpectedly at document `j`, only the documents before `j` are counted and written. The unflushed batch is lost from `indexed`, so the counters fall short of `j` by exactly that batch. The segment's skip count and error flag are not folded in. |
| SegmentWorker.WhitelistOnlyFiltersGenerated | src/main/java/io/anserini/index/IndexCollection.java:264-280 | Changing the whitelist changes a document's fate only when the document is indexable and was generated. A document the generator rejected is never counted as a whitelist skip. |
| SegmentWorker.SegmentIntoSink | src/main/java/io/anserini/index/IndexCollection.java:282-286 | In unique-docid mode a writer with one entry per id keeps one entry per id, and each id holds its last write. Otherwise the writer keeps what it held and grows by one entry per writer call. |
| SegmentWorker.AbortIsFinal | src/main/java/io/anserini/index/IndexCollection.java:317-322 | After an unexpected failure, the documents that follow change nothing. |
| Sink.UpdateStep | src/main/java/io/anserini/index/IndexCollection.java:283 | One `updateDocument` call leaves exactly one entry for its id, holding the new document. No other id's entry changes. |
| Sink.UpdatesKeepOneEntryPerId | src/main/java/io/anserini/index/IndexCollection.java:282-283 | Updates keyed by id keep one entry per id. A lookup by id yields the last write for that id. The writer holds as many entries as there are distinct ids. |
| Sink.AddsAppend | src/main/java/io/anserini/index/IndexCollection.java:284-285 | Adds grow the writer by exactly one entry per call. What the writer held is kept, and the new entries are the written documents in order. |
| CounterAggregate.SumIsOrderIndependent | src/main/java/io/anserini/index/IndexCollection.java:494-515 | Counters built from per-task atomic additions have the same final values whatever order the tasks run in. |
| Coordinator.SimilarityAsWritten | src/main/java/io/anserini/index/IndexCollection.java:464-470 | As written, the writer never gets the accurate BM25 similarity. It gets the impact similarity exactly when `-impact` is set. |
| Coordinator.AccurateOptionIsLost | src/main/java/io/anserini/index/IndexCollection.java:464-470 | With `-bm25.accurate` alone, the source configures plain BM25. |
| Coordinator.SelectSimilarity | src/main/java/io/anserini/index/IndexCollection.java:464-470 | Corrected choice: accurate BM25 exactly when `-bm25.accurate` is set. Impact exactly when only `-impact` is set. BM25 otherwise. |
| Coordinator.SelectionDiffersOnlyForAccurate | src/main/java/io/anserini/index/IndexCollection.java:464-470 | The corrected choice and the as-written choice disagree exactly when `-bm25.accurate` is set. |
| Coordinator.ShardsCoverTheRun | src/main/java/io/anserini/index/IndexCollection.java:484-489 | With more than one shard, each run indexes its shard's list. When the shards' lists together hold exactly the collection's segments, the shard runs' counters add up to those of one run over the whole collection. Nothing is lost or counted twice. |
| Coordinator.Finalise | src/main/java/io/anserini/index/IndexCollection.java:517-542 | The end of a run. The writer is called exactly when the completed-task count matches the segment count. The calls then start with the commit and end with the close. The run returns normally exactly when the gate holds, the commit returns and the requested merge returns. A close failure is logged exactly when close was called and threw. `FinaliseOrder` gives the full order. |
| Coordinator.FinaliseOrder | src/main/java/io/anserini/index/IndexCollection.java:517-542 | If the completed-task count differs from the segment count, the run fails before any writer call, so there is no commit and no close. Otherwise the commit comes first. `forceMerge(1)` follows it exactly when `-optimize` is set and the commit returned. Close is called exactly once, last. |
| Coordinator.CloseFailureIsNotFatal | src/main/java/io/anserini/index/IndexCollection.java:525-542 | A failing close is only logged. The outcome and the calls made are the same whether close throws or not. The run returns normally exactly when the gate holds, the commit returns, and the requested merge returns. |
| Coordinator.Run | src/main/java/io/anserini/index/IndexCollection.java:449-542 | The whole run. The writer is committed exactly when the completed tasks match the selected segments. The run returns counters exactly when finalisation succeeds, and then the writer was closed. The writer gets the accurate BM25 similarity exactly when `-bm25.accurate` is set. `RunOutcome` gives the returned counters. |
| Coordinator.RunTotalsAreOrderIndependent | src/main/java/io/anserini/index/IndexCollection.java:494-515 | The run's counters do not depend on the order in which the pool runs the segments. |
| Coordinator.RunOutcome | src/main/java/io/anserini/index/IndexCollection.java:484-542 | The run fails without committing when completed tasks and selected segments differ. Otherwise it returns the sum of the segments' deltas, unless the commit or the requested merge throws. `-bm25.accurate` yields the accurate similarity. |
| Coordinator.IndexedMatchesWriterCalls | src/main/java/io/anserini/index/IndexCollection.java:287-312 | Without unexpected generator failures, the run's `indexed` equals the number of writer calls of all tasks. The counters' total equals all documents plus each segment's positive skip count and error flag. |
| InputPath.ReplaceAll | src/main/java/io/anserini/index/IndexCollection.java:384 | Java's `String.replace`, scanning left to right. A longer replacement never shortens the string, and a shorter one never lengthens it. `ReplaceJoin` gives the result exactly for the placeholder. |
| InputPath.RewriteInputPath | src/main/java/io/anserini/index/IndexCollection.java:382-385 | A path that does not start with `/path/to` is unchanged. A path that does start with it is cut at every `/path/to` into pieces that hold none. The result is those same pieces joined by `collections`, so everything else is kept in order. It starts with `collections` and has no `/path/to` left. |
| InputPath.ReplaceJoin | src/main/java/io/anserini/index/IndexCollection.java:384 | Pieces without `/path/to` joined by it are rewritten to the same pieces joined by `collections`. No occurrence can straddle a piece and the placeholder after it, because `/path/to` does not overlap itself. |
| InputPath.RewriteIsDetermined | src/main/java/io/anserini/index/IndexCollection.java:383-384 | Any two ways of cutting a path into such pieces give the same rewritten path, so the pieces fix the result. |
| InputPath.NoPlaceholderAfterRewrite | src/main/java/io/anserini/index/IndexCollection.java:384 | Java's replace-all leaves no occurrence of `/path/to`. The replacement can neither start nor end one. |
| InputPath.ReplaceWithoutOccurrence | src/main/java/io/anserini/index/IndexCollection.java:384 | Replace-all changes nothing in a string without an occurrence. |
| InputPath.EveryOccurrenceIsReplaced | src/main/java/io/anserini/index/IndexCollection.java:383-384 | Every occurrence is replaced, not only the leading one: `/path/to/m/path/to` becomes `collections/mcollections`. |
| Scenarios.WhitelistScenario | src/main/java/io/anserini/index/IndexCollection.java:277-280 | With a whitelist of "a" and "c" and documents "a", "b", "c", two documents are indexed and one is skipped. |
| Scenarios.InvalidDocumentScenario | src/main/java/io/anserini/index/IndexCollection.java:272-274 | A run of three segments with one invalid document completes. `errors` is 1, and every valid document is indexed. |

## Findings

| source | as written | input that shows it | evidently intended | confidence | as-written member | corrected member |
|---|---|---|---|---|---|---|
| src/main/java/io/anserini/index/IndexCollection.java:464-470 | `if (bm25Accurate) {…} if (impact) {…} else {…}`: the second `if` always assigns the similarity again. | `-bm25.accurate` without `-impact` configures `BM25Similarity`. | `else if`, so that `AccurateBM25Similarity` is used, as the comment on :465 requires at index time. | high; not executed | Coordinator.SimilarityAsWritten (with Coordinator.AccurateOptionIsLost) | Coordinator.SelectSimilarity (with Coordinator.SelectionDiffersOnlyForAccurate) |

`Coordinator.Run` configures the writer with the corrected `SelectSimilarity`.

## Left out

- Thread pool, `awaitTermination` polling and interrupt handling (:479-515) are left out because they are concurrency. Tasks are a fold over segments. The pool's completed-task count is an input of `Coordinator.Run`, so an interrupted run is one whose count falls short.
- `Coordinator.AllOps`: the writer sees the tasks' calls in one order. The pool may interleave them. Only counters are proved independent of the interleaving.
- Progress logging (:503-508), the counter report (:548-558) and durations are left out because they are floating point, wall-clock time and logging.
- `getDocStats().maxDoc` and its warning (:522, :544-546) are left out because they are Lucene state. `IndexedMatchesWriterCalls` states what the counter side of that comparison holds.
- Lucene `IndexWriter` internals are left out. The writer is a list of (id, document) entries. The model assumes the generator stores the source id in the "id" field that `updateDocument` matches.
- Analyzer selection in `getAnalyzer` (:407-447) is left out because it builds library analyzers.
- Reflection-based class loading, whitelist file reading, the input-directory checks, index directory creation (:373-402), log levels (:340-351) and argument parsing (`main`) are left out because they are I/O or plumbing. The whitelist is given as an already loaded set.
- The shard partition itself (`getSegmentPaths(count, current)`) is left out. `DocumentCollection` is not part of this model, so the shard's list is an input. `ShardsCoverTheRun` takes as a precondition that the shards' lists together hold the collection's segments.
- A failure to construct the generator or open the segment (:243-253), and exceptions thrown by `addDocument`/`updateDocument`, are left out. Only generator failures are modelled as ending a task early.
- The `writer != null` checks (:526, :534) are left out: `-index` is a required option, so the writer always exists.
- Java integer widths are left out: `cnt` only feeds a log message, and the `AtomicLong` counters cannot overflow at realistic sizes. Counters are unbounded naturals. The segment's skip count keeps the sign of a Java `int`.
