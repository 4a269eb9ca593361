/**
 The index writer as the workers see it: an ordered collection of live documents, each
 stored with the value of its "id" field. `addDocument` appends; `updateDocument` on the
 term id=k deletes every live document whose id is k and then appends the new one.
 */
module Sink {
  import opened Documents

  /** A live document in the index, with the id the generator stored in its "id" field. */
  datatype Entry = Entry(id: string, doc: Document)

  /** One call a worker makes on the shared writer. */
  datatype SinkOp = Add(id: string, doc: Document) | Update(id: string, doc: Document)
  {
    function AsEntry(): Entry { Entry(id, doc) }
  }

  /** The sink with every entry whose id is `key` removed, the others kept in order. */
  function Delete(s: seq<Entry>, key: string): (r: seq<Entry>)
    ensures |r| <= |s|
  {
    if |s| == 0 then []
    else Delete(s[..|s| - 1], key) + (if s[|s| - 1].id == key then [] else [s[|s| - 1]])
  }

  /** The effect of one writer call. */
  function Apply(s: seq<Entry>, op: SinkOp): seq<Entry> {
    match op
    case Add(_, _) => s + [op.AsEntry()]
    case Update(key, _) => Delete(s, key) + [op.AsEntry()]
  }

  /** The effect of a sequence of writer calls, in order. */
  function ApplyAll(s: seq<Entry>, ops: seq<SinkOp>): seq<Entry> {
    if |ops| == 0 then s else Apply(ApplyAll(s, ops[..|ops| - 1]), ops[|ops| - 1])
  }

  /** How many live entries carry the id `key`. */
  function IdCount(s: seq<Entry>, key: string): nat {
    if |s| == 0 then 0 else IdCount(s[..|s| - 1], key) + (if s[|s| - 1].id == key then 1 else 0)
  }

  /** No id is held by two live entries. */
  ghost predicate OneEntryPerId(s: seq<Entry>) {
    forall key :: IdCount(s, key) <= 1
  }

  /** What a lookup by id finds: for each id, the document of its latest entry. */
  function View(s: seq<Entry>): map<string, Document> {
    if |s| == 0 then map[] else View(s[..|s| - 1])[s[|s| - 1].id := s[|s| - 1].doc]
  }

  /** A key-value store receiving the same writes: each write overrides the key's previous value. */
  function LastWrites(m: map<string, Document>, ops: seq<SinkOp>): map<string, Document> {
    if |ops| == 0 then m else LastWrites(m, ops[..|ops| - 1])[ops[|ops| - 1].id := ops[|ops| - 1].doc]
  }

  /** Deleting by key removes exactly that key from the lookup view. */
  lemma {:induction false} DeleteView(s: seq<Entry>, key: string)
    ensures View(Delete(s, key)) == View(s) - {key}
  {
    if |s| > 0 {
      var p, e := s[..|s| - 1], s[|s| - 1];
      DeleteView(p, key);
      if e.id != key {
        var dp := Delete(p, key);
        assert Delete(s, key) == dp + [e];
        assert (dp + [e])[..|dp|] == dp;
        assert View(Delete(s, key)) == View(dp)[e.id := e.doc];
        assert View(s) == View(p)[e.id := e.doc];
        RemoveThenSet(View(p), key, e.id, e.doc);
      } else {
        assert Delete(s, key) == Delete(p, key);
        assert View(s) == View(p)[e.id := e.doc];
      }
    }
  }

  /** Removing one key and setting another commute. */
  lemma RemoveThenSet(m: map<string, Document>, key: string, id: string, doc: Document)
    requires id != key
    ensures (m - {key})[id := doc] == m[id := doc] - {key}
  {
  }

  /** Deleting by key leaves no entry for that key and every other key's count untouched. */
  lemma {:induction false} DeleteCount(s: seq<Entry>, key: string, other: string)
    ensures IdCount(Delete(s, key), other) == if other == key then 0 else IdCount(s, other)
  {
    if |s| > 0 {
      var p, e := s[..|s| - 1], s[|s| - 1];
      DeleteCount(p, key, other);
      if e.id != key {
        var dp := Delete(p, key);
        assert Delete(s, key) == dp + [e];
        assert (dp + [e])[..|dp|] == dp;
      } else {
        assert Delete(s, key) == Delete(p, key);
      }
    }
  }

  /** An id has a value in the lookup view exactly when some live entry carries it. */
  lemma {:induction false} ViewDomain(s: seq<Entry>, key: string)
    ensures key in View(s) <==> IdCount(s, key) > 0
  {
    if |s| > 0 {
      ViewDomain(s[..|s| - 1], key);
    }
  }

  /**
   With one entry per id the sink holds exactly as many documents as the lookup view
   has ids.
   */
  lemma {:induction false} OneEntryPerIdSize(s: seq<Entry>)
    requires OneEntryPerId(s)
    ensures |View(s)| == |s|
  {
    if |s| > 0 {
      var p, e := s[..|s| - 1], s[|s| - 1];
      forall key ensures IdCount(p, key) <= 1 {
        assert IdCount(s, key) <= 1;
      }
      OneEntryPerIdSize(p);
      assert IdCount(s, e.id) == IdCount(p, e.id) + 1;
      ViewDomain(p, e.id);
      assert e.id !in View(p);
    }
  }

  /** One `updateDocument` call leaves exactly one entry for its id, holding its document. */
  lemma UpdateStep(s: seq<Entry>, op: SinkOp)
    requires op.Update?
    ensures forall key :: IdCount(Apply(s, op), key) == if key == op.id then 1 else IdCount(s, key)
    ensures View(Apply(s, op)) == View(s)[op.id := op.doc]
  {
    var d := Delete(s, op.id);
    assert Apply(s, op)[..|d|] == d;
    forall key ensures IdCount(Apply(s, op), key) == if key == op.id then 1 else IdCount(s, key) {
      DeleteCount(s, op.id, key);
    }
    DeleteView(s, op.id);
    assert View(Apply(s, op)) == (View(s) - {op.id})[op.id := op.doc];
  }

  /**
   In unique-docid mode every write is an update keyed by id: starting from a sink with one
   entry per id, the sink keeps one entry per id, and looking an id up yields the document
   of the last write for it (or the original one if it was never written).
   */
  lemma {:induction false} UpdatesKeepOneEntryPerId(s: seq<Entry>, ops: seq<SinkOp>)
    requires OneEntryPerId(s)
    requires forall k :: 0 <= k < |ops| ==> ops[k].Update?
    ensures OneEntryPerId(ApplyAll(s, ops))
    ensures View(ApplyAll(s, ops)) == LastWrites(View(s), ops)
    ensures |ApplyAll(s, ops)| == |LastWrites(View(s), ops)|
  {
    if |ops| > 0 {
      var prefix := ops[..|ops| - 1];
      UpdatesKeepOneEntryPerId(s, prefix);
      UpdateStep(ApplyAll(s, prefix), ops[|ops| - 1]);
    }
    OneEntryPerIdSize(ApplyAll(s, ops));
  }

  /**
   Without unique-docid mode every write is an append: the sink grows by exactly one entry
   per write, keeps what it held, and the new entries are the written documents in order.
   */
  lemma {:induction false} AddsAppend(s: seq<Entry>, ops: seq<SinkOp>)
    requires forall k :: 0 <= k < |ops| ==> ops[k].Add?
    ensures |ApplyAll(s, ops)| == |s| + |ops|
    ensures ApplyAll(s, ops)[..|s|] == s
    ensures forall k :: 0 <= k < |ops| ==> ApplyAll(s, ops)[|s| + k] == ops[k].AsEntry()
  {
    if |ops| > 0 {
      AddsAppend(s, ops[..|ops| - 1]);
    }
  }
}
