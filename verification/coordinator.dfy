/**
 The run as a whole: choosing the writer's similarity, picking the segments, running one
 worker per segment, and the checks and writer calls that end the run. The thread pool is
 replaced by a fold over the segments; its completed-task count is an input.
 */
module Coordinator {
  import opened Wrappers
  import opened Documents
  import opened CounterAggregate
  import opened Sink
  import opened SegmentWorker

  // ----- Similarity -----

  /** The scoring model configured on the writer; it fixes the norms stored at index time. */
  datatype Similarity = BM25 | AccurateBM25 | Impact

  /**
   The similarity as the source selects it: the `-bm25.accurate` branch is a separate `if`,
   and the following `if (impact) … else …` always assigns again.
   */
  function SimilarityAsWritten(bm25Accurate: bool, impact: bool): (r: Similarity)
    ensures r != AccurateBM25
    ensures r == Impact <==> impact
  {
    // An accurate choice made before this `if` is overwritten on every path.
    if impact then Impact else BM25
  }

  /** With `-bm25.accurate` alone the accurate similarity the option asks for is lost. */
  lemma AccurateOptionIsLost()
    ensures SimilarityAsWritten(true, false) == BM25
  {
  }

  /** The similarity as a chain of `else if`s: accurate BM25, else impact, else BM25. */
  function SelectSimilarity(bm25Accurate: bool, impact: bool): (r: Similarity)
    ensures r == AccurateBM25 <==> bm25Accurate
    ensures r == Impact <==> !bm25Accurate && impact
  {
    if bm25Accurate then AccurateBM25 else if impact then Impact else BM25
  }

  /** The correction changes nothing unless `-bm25.accurate` is given. */
  lemma SelectionDiffersOnlyForAccurate(bm25Accurate: bool, impact: bool)
    ensures SelectSimilarity(bm25Accurate, impact) != SimilarityAsWritten(bm25Accurate, impact)
            <==> bm25Accurate
  {
  }

  // ----- Finalisation -----

  /** The calls the coordinator makes on the writer after the pool has drained. */
  datatype WriterCall = Commit | ForceMerge(maxSegments: nat) | Close

  /** Which of the final writer calls throw (an `IOException` in the source). */
  datatype Faults = Faults(commitThrows: bool, mergeThrows: bool, closeThrows: bool)

  /** Why a run ends by throwing. */
  datatype RunError =
    | IncompleteRun(segments: nat, completed: nat)  // the consistency gate failed
    | CommitFailed
    | MergeFailed

  /**
   The end of a run: the writer calls made, whether a failing close was logged, and
   whether the run returns or throws.
   */
  datatype Finish = Finish(calls: seq<WriterCall>, closeErrorLogged: bool, outcome: Result<(), RunError>)

  /**
   The consistency gate, then commit, optional merge to one segment, and a close in a
   `finally` whose `IOException` is caught and logged.
   */
  function Finalise(segments: nat, completed: nat, optimize: bool, faults: Faults): (r: Finish)
    ensures r.calls == [] <==> segments != completed
    ensures segments == completed ==> r.calls[0] == Commit && r.calls[|r.calls| - 1] == Close
    ensures r.outcome.Success? <==>
              segments == completed && !faults.commitThrows && !(optimize && faults.mergeThrows)
    ensures r.closeErrorLogged <==> segments == completed && faults.closeThrows
  {
    if segments != completed then
      Finish([], false, Failure(IncompleteRun(segments, completed)))
    else
      var merged := optimize && !faults.commitThrows;
      var calls := [Commit] + (if merged then [ForceMerge(1)] else []) + [Close];
      var outcome :=
        if faults.commitThrows then Failure(CommitFailed)
        else if merged && faults.mergeThrows then Failure(MergeFailed)
        else Success(());
      Finish(calls, faults.closeThrows, outcome)
  }

  /** The position of the first `c` in `calls`, or `|calls|` when there is none. */
  function IndexOf(calls: seq<WriterCall>, c: WriterCall): (i: nat)
    ensures i <= |calls|
    ensures i < |calls| ==> calls[i] == c
    ensures forall k :: 0 <= k < i ==> calls[k] != c
  {
    if |calls| == 0 then 0
    else if calls[0] == c then 0
    else 1 + IndexOf(calls[1..], c)
  }

  /**
   A mismatch between segments and completed tasks ends the run before any writer call.
   Otherwise the commit comes first, a merge into one segment follows exactly when
   `-optimize` is set and the commit returned, and the writer is closed exactly once, last,
   whatever failed before it.
   */
  lemma FinaliseOrder(segments: nat, completed: nat, optimize: bool, faults: Faults)
    ensures var f := Finalise(segments, completed, optimize, faults);
            && (segments != completed ==> f.calls == [] && f.outcome == Failure(IncompleteRun(segments, completed)))
            && (segments == completed ==>
                  && |f.calls| > 0 && f.calls[0] == Commit && f.calls[|f.calls| - 1] == Close
                  && IndexOf(f.calls, Close) == |f.calls| - 1
                  && (ForceMerge(1) in f.calls <==> optimize && !faults.commitThrows)
                  && (ForceMerge(1) in f.calls ==> IndexOf(f.calls, Commit) < IndexOf(f.calls, ForceMerge(1))))
  {
    var f := Finalise(segments, completed, optimize, faults);
    if segments == completed && optimize && !faults.commitThrows {
      assert f.calls == [Commit, ForceMerge(1), Close];
    }
  }

  /**
   A failing close is logged and nothing more: the run's outcome and the calls made are
   the same whether or not close throws. The run returns normally exactly when the gate
   holds, the commit returns, and the merge, if requested, returns.
   */
  lemma CloseFailureIsNotFatal(segments: nat, completed: nat, optimize: bool, faults: Faults)
    ensures var f := Finalise(segments, completed, optimize, faults);
            var g := Finalise(segments, completed, optimize, faults.(closeThrows := !faults.closeThrows));
            && f.outcome == g.outcome && f.calls == g.calls
            && (f.closeErrorLogged <==> segments == completed && faults.closeThrows)
            && (f.outcome.Success? <==>
                  segments == completed && !faults.commitThrows && !(optimize && faults.mergeThrows))
  {
  }

  // ----- The run -----

  /** The options the coordinator reads (see `IndexCollection.Args`). */
  datatype RunConfig = RunConfig(
    worker: WorkerConfig,
    optimize: bool,
    impact: bool,
    bm25Accurate: bool,
    shardCount: int,
    shardCurrent: int)

  /**
   The segments to index: the collection's full list, or, with more than one shard, the
   list the collection returns for the current shard (computed outside this model).
   */
  function SelectSegments(cfg: RunConfig, all: seq<Segment>, shard: seq<Segment>): seq<Segment> {
    if cfg.shardCount > 1 then shard else all
  }

  /** Every segment's counter delta, one per task. */
  function Deltas(cfg: WorkerConfig, segs: seq<Segment>): (r: seq<Counters>)
    ensures |r| == |segs|
    ensures forall i :: 0 <= i < |segs| ==> r[i] == RunSegment(cfg, segs[i]).delta
  {
    if |segs| == 0 then [] else [RunSegment(cfg, segs[0]).delta] + Deltas(cfg, segs[1..])
  }

  /** The run's counters: the sum of what each segment's task added to fresh counters. */
  function RunTotals(cfg: WorkerConfig, segs: seq<Segment>): Counters {
    Sum(Deltas(cfg, segs))
  }

  /** The writer calls of every task; the pool may interleave them, this is one order. */
  function AllOps(cfg: WorkerConfig, segs: seq<Segment>): seq<SinkOp> {
    if |segs| == 0 then [] else RunSegment(cfg, segs[0]).ops + AllOps(cfg, segs[1..])
  }

  /** What `run()` reports: the writer's similarity, its final calls, and the counters or an error. */
  datatype RunReport = RunReport(similarity: Similarity, finish: Finish, result: Result<Counters, RunError>)

  /**
   One run, given the collection's segment lists, the number of tasks the pool reports as
   completed, and which final writer calls throw.
   */
  function Run(cfg: RunConfig, all: seq<Segment>, shard: seq<Segment>, completed: nat, faults: Faults): (r: RunReport)
    ensures Commit in r.finish.calls <==> completed == |SelectSegments(cfg, all, shard)|
    ensures r.result.Success? <==> r.finish.outcome.Success?
    ensures r.result.Success? ==> Close in r.finish.calls
    ensures r.similarity == AccurateBM25 <==> cfg.bm25Accurate
  {
    var segs := SelectSegments(cfg, all, shard);
    var finish := Finalise(|segs|, completed, cfg.optimize, faults);
    var result :=
      match finish.outcome
      case Failure(e) => Failure(e)
      case Success(_) => Success(RunTotals(cfg.worker, segs));
    RunReport(SelectSimilarity(cfg.bm25Accurate, cfg.impact), finish, result)
  }

  /**
   A run that returns reports, for each counter, the sum of the segments' deltas, and that
   sum does not depend on the order the segments were handed to the pool.
   */
  lemma RunTotalsAreOrderIndependent(cfg: WorkerConfig, a: seq<Segment>, b: seq<Segment>)
    requires multiset(a) == multiset(b)
    ensures RunTotals(cfg, a) == RunTotals(cfg, b)
  {
    DeltasPermute(cfg, a, b);
    SumIsOrderIndependent(Deltas(cfg, a), Deltas(cfg, b));
  }

  /** Permuting the segments permutes their deltas. */
  lemma {:induction false} DeltasPermute(cfg: WorkerConfig, a: seq<Segment>, b: seq<Segment>)
    requires multiset(a) == multiset(b)
    ensures multiset(Deltas(cfg, a)) == multiset(Deltas(cfg, b))
  {
    if |a| > 0 {
      assert a[0] in multiset(b);
      var k :| 0 <= k < |b| && b[k] == a[0];
      var rest := b[..k] + b[k + 1..];
      RemoveOne(a, b, k);
      DeltasPermute(cfg, a[1..], rest);
      DeltasSplit(cfg, b, k);
    } else {
      assert |b| == |multiset(b)| == 0;
    }
  }

  /** The deltas of a list are those of its pieces. */
  lemma {:induction false} DeltasSplit(cfg: WorkerConfig, b: seq<Segment>, k: nat)
    requires k < |b|
    ensures multiset(Deltas(cfg, b))
            == multiset{RunSegment(cfg, b[k]).delta} + multiset(Deltas(cfg, b[..k] + b[k + 1..]))
  {
    var d := Deltas(cfg, b);
    var r := Deltas(cfg, b[..k] + b[k + 1..]);
    assert d == d[..k] + [d[k]] + d[k + 1..];
    assert r == d[..k] + d[k + 1..];
    assert multiset(d) == multiset(d[..k]) + multiset{d[k]} + multiset(d[k + 1..]);
  }

  /** The segment lists of several shard runs, one after the other. */
  function Flatten(shards: seq<seq<Segment>>): seq<Segment> {
    if |shards| == 0 then [] else shards[0] + Flatten(shards[1..])
  }

  /** The counters of one run per shard list, added up; every run uses `cfg`'s options. */
  function ShardedTotals(cfg: RunConfig, all: seq<Segment>, shards: seq<seq<Segment>>): Counters {
    if |shards| == 0 then Zero
    else RunTotals(cfg.worker, SelectSegments(cfg, all, shards[0])).Plus(ShardedTotals(cfg, all, shards[1..]))
  }

  /** The deltas of two lists joined are the two lists of deltas joined. */
  lemma DeltasConcat(cfg: WorkerConfig, a: seq<Segment>, b: seq<Segment>)
    ensures Deltas(cfg, a + b) == Deltas(cfg, a) + Deltas(cfg, b)
  {
    var d := Deltas(cfg, a + b);
    forall i | 0 <= i < |d| ensures d[i] == (Deltas(cfg, a) + Deltas(cfg, b))[i] {
      if i >= |a| {
        assert (a + b)[i] == b[i - |a|];
      }
    }
  }

  /** With sharding on, the shard runs' counters add up to the counters of their lists joined. */
  lemma {:induction false} ShardedTotalsFlatten(cfg: RunConfig, all: seq<Segment>, shards: seq<seq<Segment>>)
    requires cfg.shardCount > 1
    ensures ShardedTotals(cfg, all, shards) == RunTotals(cfg.worker, Flatten(shards))
  {
    if |shards| > 0 {
      ShardedTotalsFlatten(cfg, all, shards[1..]);
      DeltasConcat(cfg.worker, shards[0], Flatten(shards[1..]));
      SumConcat(Deltas(cfg.worker, shards[0]), Deltas(cfg.worker, Flatten(shards[1..])));
    } else {
      assert Deltas(cfg.worker, []) == [];
    }
  }

  /**
   Sharding neither loses nor double-counts: when the shards' segment lists together hold
   exactly the collection's segments, the shard runs' counters add up to the counters of a
   single run over the whole collection.
   */
  lemma ShardsCoverTheRun(cfg: RunConfig, all: seq<Segment>, shards: seq<seq<Segment>>)
    requires cfg.shardCount > 1
    requires multiset(Flatten(shards)) == multiset(all)
    ensures ShardedTotals(cfg, all, shards)
            == RunTotals(cfg.worker, SelectSegments(cfg.(shardCount := 1), all, []))
  {
    ShardedTotalsFlatten(cfg, all, shards);
    RunTotalsAreOrderIndependent(cfg.worker, Flatten(shards), all);
  }

  /**
   The run's outcome: it fails, without committing, when the completed tasks do not match
   the selected segments; otherwise it returns the summed counters unless the commit or
   the requested merge throws. The writer always gets the corrected similarity.
   */
  lemma RunOutcome(cfg: RunConfig, all: seq<Segment>, shard: seq<Segment>, completed: nat, faults: Faults)
    ensures var segs := SelectSegments(cfg, all, shard);
            var r := Run(cfg, all, shard, completed, faults);
            && (completed != |segs| ==> r.result == Failure(IncompleteRun(|segs|, completed))
                                        && Commit !in r.finish.calls)
            && (r.result.Success? <==>
                  completed == |segs| && !faults.commitThrows && !(cfg.optimize && faults.mergeThrows))
            && (r.result.Success? ==> r.result.value == Sum(Deltas(cfg.worker, segs)) && Commit in r.finish.calls)
            && (cfg.bm25Accurate ==> r.similarity == AccurateBM25)
  {
  }

  /**
   When no generator fails unexpectedly, the run's `indexed` equals the number of writer
   calls made by all tasks, and its total equals every document plus each segment's
   positive skip count and error flag.
   */
  lemma {:induction false} IndexedMatchesWriterCalls(cfg: WorkerConfig, segs: seq<Segment>)
    requires forall i :: 0 <= i < |segs| ==> NoAbort(cfg, segs[i].docs)
    ensures RunTotals(cfg, segs).indexed == |AllOps(cfg, segs)|
    ensures RunTotals(cfg, segs).Total() == SegmentEvents(segs)
  {
    if |segs| > 0 {
      SegmentAccounting(cfg, segs[0]);
      assert Deltas(cfg, segs) == [RunSegment(cfg, segs[0]).delta] + Deltas(cfg, segs[1..]);
      IndexedMatchesWriterCalls(cfg, segs[1..]);
    }
  }

  /** The documents of `segs` plus each segment's positive skip count and error flag. */
  function SegmentEvents(segs: seq<Segment>): nat {
    if |segs| == 0 then 0
    else
      var seg := segs[0];
      |seg.docs| + (if seg.skippedCount > 0 then seg.skippedCount else 0) + (if seg.errorStatus then 1 else 0)
        + SegmentEvents(segs[1..])
  }
}
