/**
 The five run-wide counters. Workers only ever add to them, so a run's final values are
 the sum of what each segment added.
 */
module CounterAggregate {

  datatype Counters = Counters(indexed: nat, unindexable: nat, empty: nat, skipped: nat, errors: nat)
  {
    /** Every document or segment event that was counted somewhere. */
    function Total(): nat {
      indexed + unindexable + empty + skipped + errors
    }

    /** Field-wise addition: the effect of applying `other`'s increments after this one's. */
    function Plus(other: Counters): (r: Counters)
    {
      Counters(indexed + other.indexed, unindexable + other.unindexable, empty + other.empty,
               skipped + other.skipped, errors + other.errors)
    }
  }

  const Zero: Counters := Counters(0, 0, 0, 0, 0)

  /** The counters after every delta in `deltas` has been added to fresh counters. */
  function Sum(deltas: seq<Counters>): Counters
  {
    if |deltas| == 0 then Zero else deltas[0].Plus(Sum(deltas[1..]))
  }

  /** Adding a delta in front of a list adds it to the list's sum. */
  lemma SumCons(x: Counters, s: seq<Counters>)
    ensures Sum([x] + s) == x.Plus(Sum(s))
  {
    assert ([x] + s)[1..] == s;
  }

  /** Two deltas added one after the other can be added in either order. */
  lemma PlusSwap(a: Counters, b: Counters, c: Counters)
    ensures a.Plus(b.Plus(c)) == b.Plus(a.Plus(c))
  {
  }

  /** The sum of two lists joined is the sum of their sums. */
  lemma {:induction false} SumConcat(a: seq<Counters>, b: seq<Counters>)
    ensures Sum(a + b) == Sum(a).Plus(Sum(b))
  {
    if |a| == 0 {
      assert a + b == b;
    } else {
      assert a + b == [a[0]] + (a[1..] + b);
      SumCons(a[0], a[1..] + b);
      SumConcat(a[1..], b);
    }
  }

  /** Removing one delta from anywhere in the list and adding it first gives the same sum. */
  lemma SumExtract(deltas: seq<Counters>, k: nat)
    requires k < |deltas|
    ensures Sum(deltas) == deltas[k].Plus(Sum(deltas[..k] + deltas[k + 1..]))
  {
    var pre, post := deltas[..k], deltas[k + 1..];
    assert deltas == pre + ([deltas[k]] + post);
    SumConcat(pre, [deltas[k]] + post);
    SumCons(deltas[k], post);
    SumConcat(pre, post);
    PlusSwap(Sum(pre), deltas[k], Sum(post));
  }

  /**
   The sum does not depend on the order of the deltas: whatever order the tasks run in,
   the counters end with the same values.
   */
  lemma {:induction false} SumIsOrderIndependent(a: seq<Counters>, b: seq<Counters>)
    requires multiset(a) == multiset(b)
    ensures Sum(a) == Sum(b)
  {
    if |a| > 0 {
      assert a[0] in multiset(b);
      var k :| 0 <= k < |b| && b[k] == a[0];
      var rest := b[..k] + b[k + 1..];
      RemoveOne(a, b, k);
      SumIsOrderIndependent(a[1..], rest);
      SumExtract(b, k);
    } else {
      assert |b| == |multiset(b)| == 0;
    }
  }

  /** Taking the same element out of two permutations leaves two permutations. */
  lemma RemoveOne<T>(a: seq<T>, b: seq<T>, k: nat)
    requires multiset(a) == multiset(b) && 0 < |a| && k < |b| && b[k] == a[0]
    ensures multiset(a[1..]) == multiset(b[..k] + b[k + 1..])
  {
    assert b == b[..k] + [b[k]] + b[k + 1..];
    assert a == [a[0]] + a[1..];
    assert multiset(b) == multiset(b[..k]) + multiset{b[k]} + multiset(b[k + 1..]);
    assert multiset(a) == multiset{a[0]} + multiset(a[1..]);
    assert multiset(b[..k] + b[k + 1..]) == multiset(b[..k]) + multiset(b[k + 1..]);
    assert multiset(a[1..]) == multiset(a) - multiset{a[0]};
    assert multiset(b[..k] + b[k + 1..]) == multiset(b) - multiset{b[k]};
  }
}
