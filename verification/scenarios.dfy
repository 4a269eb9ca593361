/** Small runs worked through end to end. */
module Scenarios {
  import opened Wrappers
  import opened Documents
  import opened CounterAggregate
  import opened Sink
  import opened SegmentWorker
  import opened Coordinator

  const Body: Document := Document([("contents", "text")])

  /**
   A whitelist holding "a" and "c", against a segment yielding "a", "b" and "c": two
   documents are indexed and "b" is skipped.
   */
  lemma WhitelistScenario()
    ensures var docs := [SourceDocument(true, "a", Generated(Body)), SourceDocument(true, "b", Generated(Body)),
                         SourceDocument(true, "c", Generated(Body))];
            var r := RunSegment(WorkerConfig(false, Some({"a", "c"})), Segment(docs, 0, false));
            r.delta == Counters(2, 0, 0, 1, 0) && r.ops == [Add("a", Body), Add("c", Body)]
  {
    var cfg := WorkerConfig(false, Some({"a", "c"}));
    var docs := [SourceDocument(true, "a", Generated(Body)), SourceDocument(true, "b", Generated(Body)),
                 SourceDocument(true, "c", Generated(Body))];
    assert docs[..0] == [];
    assert docs[..1][..0] == docs[..0];
    assert Scan(cfg, docs[..1]) == ScanState(Counters(1, 0, 0, 0, 0), [Add("a", Body)], false);
    assert docs[..2][..1] == docs[..1];
    assert Scan(cfg, docs[..2]) == ScanState(Counters(1, 0, 0, 1, 0), [Add("a", Body)], false);
    assert docs[..3][..2] == docs[..2];
    assert docs[..3] == docs;
  }

  const Plain: WorkerConfig := WorkerConfig(false, None)

  /** A segment holding one valid document and one the generator rejects as invalid. */
  const WithInvalid: Segment :=
    Segment([SourceDocument(true, "1", Generated(Body)), SourceDocument(true, "2", InvalidDocument)], 0, false)

  /** A segment holding one valid document. */
  function OneDocument(id: string): Segment {
    Segment([SourceDocument(true, id, Generated(Body))], 0, false)
  }

  /**
   Three segments, one of which holds a document the generator rejects as invalid: the
   run completes, `errors` is one, and every valid document is indexed.
   */
  lemma InvalidDocumentScenario()
    ensures Run(RunConfig(Plain, false, false, false, -1, -1), [WithInvalid, OneDocument("3"), OneDocument("4")],
                [], 3, Faults(false, false, false)).result
            == Success(Counters(3, 0, 0, 0, 1))
  {
    var segs := [WithInvalid, OneDocument("3"), OneDocument("4")];
    RunOutcome(RunConfig(Plain, false, false, false, -1, -1), segs, [], 3, Faults(false, false, false));
    InvalidSegment();
    OneDocumentSegment("3");
    OneDocumentSegment("4");
    var ds := [Counters(1, 0, 0, 0, 1), Counters(1, 0, 0, 0, 0), Counters(1, 0, 0, 0, 0)];
    assert Deltas(Plain, segs) == ds;
    assert ds[1..][1..][1..] == [];
    assert Sum(ds) == Counters(3, 0, 0, 0, 1);
  }

  lemma OneDocumentSegment(id: string)
    ensures RunSegment(Plain, OneDocument(id)).delta == Counters(1, 0, 0, 0, 0)
  {
    var docs := OneDocument(id).docs;
    assert docs[..|docs| - 1] == [];
    assert Scan(Plain, docs) == ScanState(Counters(1, 0, 0, 0, 0), [Add(id, Body)], false);
  }

  lemma InvalidSegment()
    ensures RunSegment(Plain, WithInvalid).delta == Counters(1, 0, 0, 0, 1)
  {
    var a := WithInvalid.docs;
    assert a[..1][..0] == [];
    assert Scan(Plain, a[..1]) == ScanState(Counters(1, 0, 0, 0, 0), [Add("1", Body)], false);
    assert Scan(Plain, a) == ScanState(Counters(1, 0, 0, 0, 1), [Add("1", Body)], false);
  }
}
