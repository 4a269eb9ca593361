/**
 One indexing task: the worker that streams one file segment through the document
 generator and the filters into the shared writer, and adds what it saw to the run-wide
 counters. The worker's additions are returned as a delta; its writer calls as a list.
 */
module SegmentWorker {
  import opened Wrappers
  import opened Documents
  import opened CounterAggregate
  import opened Sink

  /** The worker publishes its count of written documents in batches of this size. */
  const BatchSize: nat := 10000

  /** The run options a worker reads: `-uniqueDocid` and the loaded `-whitelist` (or null). */
  datatype WorkerConfig = WorkerConfig(uniqueDocid: bool, whitelist: Option<set<string>>)

  /** What the pipeline does with one source document. */
  datatype Fate =
    | Written           // handed to the writer
    | Unindexable       // `indexable()` said no
    | Empty             // the generator found nothing to index
    | GeneratorSkipped  // the generator chose to skip it
    | NotWhitelisted    // a whitelist is loaded and does not hold its id
    | Invalid           // the generator rejected it as malformed
    | Aborted           // the generator failed unexpectedly; the rest of the segment is lost

  /** The id passes the whitelist filter: there is no whitelist, or it holds the id. */
  predicate Whitelisted(cfg: WorkerConfig, id: string) {
    cfg.whitelist.None? || id in cfg.whitelist.value
  }

  /**
   The checks in source order: indexability first, then the generator's verdict, then
   the whitelist.
   */
  function FateOf(cfg: WorkerConfig, d: SourceDocument): (f: Fate)
    ensures f == Written <==> d.indexable && d.generation.Generated? && Whitelisted(cfg, d.id)
    ensures f == NotWhitelisted <==> d.indexable && d.generation.Generated? && !Whitelisted(cfg, d.id)
  {
    if !d.indexable then Unindexable
    else match d.generation
      case EmptyDocument => Empty
      case SkippedDocument => GeneratorSkipped
      case InvalidDocument => Invalid
      case GeneratorFailure => Aborted
      case Generated(_) => if Whitelisted(cfg, d.id) then Written else NotWhitelisted
  }

  /**
   The remaining fates, each in terms of the document alone: a document that is not
   indexable is counted as such whatever the generator would say, and an indexable one
   takes the generator's verdict.
   */
  lemma FateOfCases(cfg: WorkerConfig, d: SourceDocument)
    ensures FateOf(cfg, d) == Unindexable <==> !d.indexable
    ensures FateOf(cfg, d) == Empty <==> d.indexable && d.generation.EmptyDocument?
    ensures FateOf(cfg, d) == GeneratorSkipped <==> d.indexable && d.generation.SkippedDocument?
    ensures FateOf(cfg, d) == Invalid <==> d.indexable && d.generation.InvalidDocument?
    ensures FateOf(cfg, d) == Aborted <==> d.indexable && d.generation.GeneratorFailure?
  {
  }

  /** The writer call for an accepted document: an update keyed by id, or a plain add. */
  function WriteFor(cfg: WorkerConfig, id: string, doc: Document): (op: SinkOp)
    ensures op.id == id && op.doc == doc
    ensures op.Update? <==> cfg.uniqueDocid
  {
    if cfg.uniqueDocid then Update(id, doc) else Add(id, doc)
  }

  /**
   The worker's state part-way through a segment: what it has counted (with `indexed`
   holding every document written so far, flushed or not), the writer calls made, and
   whether an unexpected failure has ended the loop.
   */
  datatype ScanState = ScanState(counts: Counters, ops: seq<SinkOp>, aborted: bool)

  const Start: ScanState := ScanState(Zero, [], false)

  /** One iteration of the per-document loop. */
  function Step(cfg: WorkerConfig, s: ScanState, d: SourceDocument): ScanState {
    var c := s.counts;
    match FateOf(cfg, d)
    case Written =>
      s.(counts := c.(indexed := c.indexed + 1),
         ops := s.ops + [WriteFor(cfg, d.id, d.generation.doc)])
    case Unindexable => s.(counts := c.(unindexable := c.unindexable + 1))
    case Empty => s.(counts := c.(empty := c.empty + 1))
    case GeneratorSkipped => s.(counts := c.(skipped := c.skipped + 1))
    case NotWhitelisted => s.(counts := c.(skipped := c.skipped + 1))
    case Invalid => s.(counts := c.(errors := c.errors + 1))
    case Aborted => s.(aborted := true)
  }

  /** The loop run over `docs`; once aborted, later documents are never looked at. */
  function Scan(cfg: WorkerConfig, docs: seq<SourceDocument>): ScanState {
    if |docs| == 0 then Start
    else
      var s := Scan(cfg, docs[..|docs| - 1]);
      if s.aborted then s else Step(cfg, s, docs[|docs| - 1])
  }

  /** The loop counts one write per writer call, and makes at most one call per document. */
  lemma {:induction false} ScanCountsWrites(cfg: WorkerConfig, docs: seq<SourceDocument>)
    ensures Scan(cfg, docs).counts.indexed == |Scan(cfg, docs).ops| <= |docs|
  {
    if |docs| > 0 {
      ScanCountsWrites(cfg, docs[..|docs| - 1]);
    }
  }

  /** The part of `n` writes already published when batches of `BatchSize` are flushed. */
  function Flushed(n: nat): (r: nat)
    ensures r <= n && n - r < BatchSize && r % BatchSize == 0
  {
    n - n % BatchSize
  }

  /** A segment's contribution to the run: counter increments and writer calls, in order. */
  datatype SegmentResult = SegmentResult(delta: Counters, ops: seq<SinkOp>)

  /**
   What one task adds to the run. After an unexpected failure the task ends in its catch
   block: the documents of the unflushed batch stay uncounted and the segment's own skip
   count and error flag are never read. Otherwise the last batch is flushed, a positive
   skip count is added to `skipped`, and an error flag adds one to `errors`.
   */
  function RunSegment(cfg: WorkerConfig, seg: Segment): (r: SegmentResult)
    ensures |r.ops| <= |seg.docs|
    ensures r.delta.indexed <= |r.ops| < r.delta.indexed + BatchSize
    ensures !Scan(cfg, seg.docs).aborted ==> r.delta.indexed == |r.ops|
  {
    ScanCountsWrites(cfg, seg.docs);
    var s := Scan(cfg, seg.docs);
    var c := s.counts;
    if s.aborted then
      SegmentResult(c.(indexed := Flushed(c.indexed)), s.ops)
    else
      SegmentResult(c.(skipped := c.skipped + (if seg.skippedCount > 0 then seg.skippedCount else 0),
                       errors := c.errors + (if seg.errorStatus then 1 else 0)),
                    s.ops)
  }

  /**
   The worker as the source writes it: a loop over the segment that counts written
   documents in `cnt` and in a local `batch`, publishing `batch` to `indexed` whenever it
   reaches 10,000 and once more at the end.
   */
  method IndexSegment(cfg: WorkerConfig, seg: Segment) returns (delta: Counters, ops: seq<SinkOp>)
    ensures SegmentResult(delta, ops) == RunSegment(cfg, seg)
  {
    // `delta.indexed` holds only what has been published; `cnt` counts every write.
    delta := Zero;
    var cnt, batch := 0, 0;
    var aborted := false;
    ops := [];
    var i := 0;
    // The reference state of the fold after the first `i` documents.
    ghost var st := Start;
    while i < |seg.docs| && !aborted
      invariant i <= |seg.docs|
      invariant 0 <= batch < BatchSize
      invariant delta.indexed + batch == cnt
      invariant delta.indexed % BatchSize == 0
      invariant st == Scan(cfg, seg.docs[..i])
      invariant st.counts == delta.(indexed := cnt)
      invariant st.ops == ops
      invariant st.aborted == aborted
    {
      var d := seg.docs[i];
      assert seg.docs[..i + 1][..i] == seg.docs[..i];
      StepEffect(cfg, st, d);
      st := Step(cfg, st, d);
      if !d.indexable {
        delta := delta.(unindexable := delta.unindexable + 1);
      } else {
        match d.generation
        case EmptyDocument =>
          delta := delta.(empty := delta.empty + 1);
        case SkippedDocument =>
          delta := delta.(skipped := delta.skipped + 1);
        case InvalidDocument =>
          delta := delta.(errors := delta.errors + 1);
        case GeneratorFailure =>
          aborted := true;
        case Generated(doc) =>
          if cfg.whitelist.Some? && d.id !in cfg.whitelist.value {
            delta := delta.(skipped := delta.skipped + 1);
          } else {
            if cfg.uniqueDocid {
              ops := ops + [Update(d.id, doc)];
            } else {
              ops := ops + [Add(d.id, doc)];
            }
            cnt := cnt + 1;
            batch := batch + 1;
            if batch % BatchSize == 0 {
              delta := delta.(indexed := delta.indexed + batch);
              batch := 0;
            }
          }
      }
      i := i + 1;
    }
    if aborted {
      AbortIsFinal(cfg, seg.docs, i);
      FlushedSplit(delta.indexed, batch);
    } else {
      assert seg.docs[..i] == seg.docs;
      delta := delta.(indexed := delta.indexed + batch);
      if seg.skippedCount > 0 {
        delta := delta.(skipped := delta.skipped + seg.skippedCount);
      }
      if seg.errorStatus {
        delta := delta.(errors := delta.errors + 1);
      }
    }
  }

  /** One loop iteration in the source's own terms. */
  lemma StepEffect(cfg: WorkerConfig, s: ScanState, d: SourceDocument)
    ensures var r := Step(cfg, s, d);
            var c := s.counts;
            && (!d.indexable ==> r == s.(counts := c.(unindexable := c.unindexable + 1)))
            && (d.indexable && d.generation.EmptyDocument? ==> r == s.(counts := c.(empty := c.empty + 1)))
            && (d.indexable && d.generation.SkippedDocument? ==> r == s.(counts := c.(skipped := c.skipped + 1)))
            && (d.indexable && d.generation.InvalidDocument? ==> r == s.(counts := c.(errors := c.errors + 1)))
            && (d.indexable && d.generation.GeneratorFailure? ==> r == s.(aborted := true))
            && (FateOf(cfg, d) == NotWhitelisted ==> r == s.(counts := c.(skipped := c.skipped + 1)))
            && (FateOf(cfg, d) == Written ==>
                  r == s.(counts := c.(indexed := c.indexed + 1),
                          ops := s.ops + [WriteFor(cfg, d.id, d.generation.doc)]))
  {
  }

  /** A count made of whole flushed batches plus a partial batch has exactly those batches flushed. */
  lemma FlushedSplit(flushed: nat, batch: nat)
    requires flushed % BatchSize == 0 && batch < BatchSize
    ensures Flushed(flushed + batch) == flushed
  {
  }

  /** Once the loop has aborted, the documents after the failing one change nothing. */
  lemma {:induction false} AbortIsFinal(cfg: WorkerConfig, docs: seq<SourceDocument>, i: nat)
    requires i <= |docs| && Scan(cfg, docs[..i]).aborted
    ensures Scan(cfg, docs) == Scan(cfg, docs[..i])
  {
    if i < |docs| {
      assert docs[..|docs| - 1][..i] == docs[..i];
      AbortIsFinal(cfg, docs[..|docs| - 1], i);
    } else {
      assert docs[..i] == docs;
    }
  }

  // ----- A reference description of a segment, document by document -----

  /** How many documents of `docs` meet the fate `f`. */
  function CountFate(cfg: WorkerConfig, docs: seq<SourceDocument>, f: Fate): nat {
    if |docs| == 0 then 0
    else CountFate(cfg, docs[..|docs| - 1], f) + (if FateOf(cfg, docs[|docs| - 1]) == f then 1 else 0)
  }

  /** The writer calls for the accepted documents of `docs`, in document order. */
  function Writes(cfg: WorkerConfig, docs: seq<SourceDocument>): seq<SinkOp> {
    if |docs| == 0 then []
    else
      var d := docs[|docs| - 1];
      Writes(cfg, docs[..|docs| - 1])
        + (if FateOf(cfg, d) == Written then [WriteFor(cfg, d.id, d.generation.doc)] else [])
  }

  /** No document of `docs` makes the generator fail unexpectedly. */
  ghost predicate NoAbort(cfg: WorkerConfig, docs: seq<SourceDocument>) {
    forall i :: 0 <= i < |docs| ==> FateOf(cfg, docs[i]) != Aborted
  }

  /** The counters a fully processed run of `docs` adds, before the segment-level folds. */
  function Tally(cfg: WorkerConfig, docs: seq<SourceDocument>): Counters {
    Counters(CountFate(cfg, docs, Written), CountFate(cfg, docs, Unindexable), CountFate(cfg, docs, Empty),
             CountFate(cfg, docs, GeneratorSkipped) + CountFate(cfg, docs, NotWhitelisted),
             CountFate(cfg, docs, Invalid))
  }

  /**
   The loop, run without an unexpected failure, counts each document under its own fate
   and writes exactly the accepted ones, in order.
   */
  lemma {:induction false} ScanMatchesTally(cfg: WorkerConfig, docs: seq<SourceDocument>)
    requires NoAbort(cfg, docs)
    ensures Scan(cfg, docs) == ScanState(Tally(cfg, docs), Writes(cfg, docs), false)
  {
    if |docs| > 0 {
      var p := docs[..|docs| - 1];
      assert NoAbort(cfg, p) by {
        forall i | 0 <= i < |p| ensures FateOf(cfg, p[i]) != Aborted {
          assert p[i] == docs[i];
        }
      }
      ScanMatchesTally(cfg, p);
      assert FateOf(cfg, docs[|docs| - 1]) != Aborted;
    }
  }

  /** Every document meets exactly one fate, so the fates' counts add up to the documents. */
  lemma {:induction false} FatesPartition(cfg: WorkerConfig, docs: seq<SourceDocument>)
    ensures CountFate(cfg, docs, Written) + CountFate(cfg, docs, Unindexable) + CountFate(cfg, docs, Empty)
            + CountFate(cfg, docs, GeneratorSkipped) + CountFate(cfg, docs, NotWhitelisted)
            + CountFate(cfg, docs, Invalid) + CountFate(cfg, docs, Aborted) == |docs|
  {
    if |docs| > 0 {
      FatesPartition(cfg, docs[..|docs| - 1]);
    }
  }

  /**
   The writer only ever receives accepted documents: each call carries the id and the
   generated document of an indexable source document whose id passes the whitelist, and
   it is an update exactly in unique-docid mode. There is one call per accepted document.
   */
  lemma {:induction false} WritesAreAccepted(cfg: WorkerConfig, docs: seq<SourceDocument>)
    ensures |Writes(cfg, docs)| == CountFate(cfg, docs, Written)
    ensures forall op :: op in Writes(cfg, docs) ==>
              && (op.Update? <==> cfg.uniqueDocid)
              && Whitelisted(cfg, op.id)
              && exists d :: d in docs && d.indexable && d.id == op.id && d.generation == Generated(op.doc)
  {
    if |docs| > 0 {
      var p, last := docs[..|docs| - 1], docs[|docs| - 1];
      WritesAreAccepted(cfg, p);
      forall op | op in Writes(cfg, docs)
        ensures exists d :: d in docs && d.indexable && d.id == op.id && d.generation == Generated(op.doc)
      {
        if op in Writes(cfg, p) {
          var d :| d in p && d.indexable && d.id == op.id && d.generation == Generated(op.doc);
          assert d in docs;
        } else {
          assert last in docs;
        }
      }
    }
  }

  /**
   A segment the generator never fails on: each document is counted exactly once, under
   its own fate; `indexed` grows by exactly the number of writer calls; `skipped` also
   takes the segment's skip count when it is positive, and `errors` one more when the
   segment reports an error. In total the counters grow by the number of documents plus
   those two segment-level additions.
   */
  lemma SegmentAccounting(cfg: WorkerConfig, seg: Segment)
    requires NoAbort(cfg, seg.docs)
    ensures var r := RunSegment(cfg, seg);
            var extraSkipped := if seg.skippedCount > 0 then seg.skippedCount else 0;
            var extraErrors := if seg.errorStatus then 1 else 0;
            && r.ops == Writes(cfg, seg.docs)
            && r.delta.indexed == |r.ops| == CountFate(cfg, seg.docs, Written)
            && r.delta.unindexable == CountFate(cfg, seg.docs, Unindexable)
            && r.delta.empty == CountFate(cfg, seg.docs, Empty)
            && r.delta.skipped == CountFate(cfg, seg.docs, GeneratorSkipped)
                                  + CountFate(cfg, seg.docs, NotWhitelisted) + extraSkipped
            && r.delta.errors == CountFate(cfg, seg.docs, Invalid) + extraErrors
            && r.delta.Total() == |seg.docs| + extraSkipped + extraErrors
  {
    ScanMatchesTally(cfg, seg.docs);
    WritesAreAccepted(cfg, seg.docs);
    FatesPartition(cfg, seg.docs);
    assert CountFate(cfg, seg.docs, Aborted) == 0 by {
      NoAbortCountsNone(cfg, seg.docs);
    }
  }

  /** Without a failing document there is nothing counted as aborted. */
  lemma {:induction false} NoAbortCountsNone(cfg: WorkerConfig, docs: seq<SourceDocument>)
    requires NoAbort(cfg, docs)
    ensures CountFate(cfg, docs, Aborted) == 0
  {
    if |docs| > 0 {
      var p := docs[..|docs| - 1];
      assert NoAbort(cfg, p) by {
        forall i | 0 <= i < |p| ensures FateOf(cfg, p[i]) != Aborted {
          assert p[i] == docs[i];
        }
      }
      NoAbortCountsNone(cfg, p);
      assert FateOf(cfg, docs[|docs| - 1]) != Aborted;
    }
  }

  /**
   A segment whose generator fails unexpectedly at document `j`: the documents before `j`
   are counted and written as usual, nothing from `j` on is looked at, the writes of the
   unflushed batch (fewer than 10,000) never reach `indexed`, and the segment's skip count
   and error flag are ignored.
   */
  lemma AbortedSegment(cfg: WorkerConfig, seg: Segment, j: nat)
    requires j < |seg.docs| && FateOf(cfg, seg.docs[j]) == Aborted && NoAbort(cfg, seg.docs[..j])
    ensures var r := RunSegment(cfg, seg);
            var before := seg.docs[..j];
            && r.ops == Writes(cfg, before)
            && r.delta == Tally(cfg, before).(indexed := Flushed(|r.ops|))
            && r.delta.Total() + |r.ops| % BatchSize == j
  {
    var before := seg.docs[..j];
    ScanMatchesTally(cfg, before);
    assert seg.docs[..j + 1][..j] == before;
    assert Scan(cfg, seg.docs[..j + 1]).aborted;
    AbortIsFinal(cfg, seg.docs, j + 1);
    WritesAreAccepted(cfg, before);
    FatesPartition(cfg, before);
    NoAbortCountsNone(cfg, before);
  }

  /** The whitelist only ever filters generated documents: every other fate ignores it. */
  lemma WhitelistOnlyFiltersGenerated(cfg: WorkerConfig, d: SourceDocument, whitelist: Option<set<string>>)
    ensures FateOf(cfg, d) != FateOf(cfg.(whitelist := whitelist), d)
            ==> d.indexable && d.generation.Generated?
    ensures !d.indexable || !d.generation.Generated? ==> FateOf(cfg, d) != NotWhitelisted
  {
  }

  /**
   The writer after a segment: in unique-docid mode a sink with one entry per id keeps one
   entry per id, each holding its last write; otherwise the sink grows by one entry per
   accepted document, in document order.
   */
  lemma SegmentIntoSink(cfg: WorkerConfig, seg: Segment, s: seq<Entry>)
    requires cfg.uniqueDocid ==> OneEntryPerId(s)
    ensures var ops := RunSegment(cfg, seg).ops;
            var r := ApplyAll(s, ops);
            && (cfg.uniqueDocid ==> OneEntryPerId(r) && View(r) == LastWrites(View(s), ops))
            && (!cfg.uniqueDocid ==> |r| == |s| + |ops| && r[..|s|] == s)
  {
    var ops := RunSegment(cfg, seg).ops;
    ScanOpsKind(cfg, seg.docs);
    if cfg.uniqueDocid {
      UpdatesKeepOneEntryPerId(s, ops);
    } else {
      AddsAppend(s, ops);
    }
  }

  /** Every writer call of a scan is of the kind the unique-docid setting selects. */
  lemma {:induction false} ScanOpsKind(cfg: WorkerConfig, docs: seq<SourceDocument>)
    ensures forall k :: 0 <= k < |Scan(cfg, docs).ops| ==> (Scan(cfg, docs).ops[k].Update? <==> cfg.uniqueDocid)
  {
    if |docs| > 0 {
      ScanOpsKind(cfg, docs[..|docs| - 1]);
    }
  }
}
