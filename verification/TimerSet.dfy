/** An ordered set of timers: their expirations and addresses, in order. */
module TimerSet {

  /** std::pair<Timestamp, Timer*>; the second part is an address or the sentry's UINTPTR_MAX. */
  type Entry = (int, nat)

  predicate Less(a: Entry, b: Entry) {
    a.0 < b.0 || (a.0 == b.0 && a.1 < b.1)
  }

  /** A std::set is its elements in order. */
  predicate Sorted(es: seq<Entry>) {
    forall i, j :: 0 <= i < j < |es| ==> Less(es[i], es[j])
  }

  function LowerBound(es: seq<Entry>, key: Entry): (k: nat)
    ensures k <= |es|
    ensures forall i :: 0 <= i < k ==> Less(es[i], key)
    ensures k < |es| ==> !Less(es[k], key)
  {
    if es == [] || !Less(es[0], key) then 0 else 1 + LowerBound(es[1..], key)
  }

  function Inserted(es: seq<Entry>, e: Entry): seq<Entry> {
    var k := LowerBound(es, e); es[..k] + [e] + es[k..]
  }

  lemma LowerBoundSplits(es: seq<Entry>, e: Entry)
    requires Sorted(es) && e !in es
    ensures forall i :: LowerBound(es, e) <= i < |es| ==> Less(e, es[i])
  {
    var k := LowerBound(es, e);
    forall i | k <= i < |es| ensures Less(e, es[i]) {
      assert es[k] in es && (k < i ==> Less(es[k], es[i]));
    }
  }

  lemma InsertedAt(es: seq<Entry>, e: Entry, i: nat)
    requires i <= |es|
    ensures |Inserted(es, e)| == |es| + 1
    ensures var k := LowerBound(es, e); Inserted(es, e)[i] == if i < k then es[i] else if i == k then e else es[i - 1]
  {
  }

  lemma InsertedIsOrdered(es: seq<Entry>, e: Entry)
    requires Sorted(es) && e !in es
    ensures Sorted(Inserted(es, e))
  {
    LowerBoundSplits(es, e);
    var k, r := LowerBound(es, e), Inserted(es, e);
    assert |r| == |es| + 1;
    hide LowerBound, Inserted;
    forall i, j | 0 <= i < j < |r| ensures Less(r[i], r[j]) {
      InsertedAt(es, e, i);
      InsertedAt(es, e, j);
    }
  }

  lemma InsertedHas(es: seq<Entry>, e: Entry, x: Entry)
    ensures x in Inserted(es, e) <==> x == e || x in es
  {
    var k := LowerBound(es, e);
    hide LowerBound;
    assert es == es[..k] + es[k..];
  }

  lemma InsertedIsSorted(es: seq<Entry>, e: Entry)
    requires Sorted(es) && e !in es
    ensures Sorted(Inserted(es, e)) && |Inserted(es, e)| == |es| + 1
    ensures forall x :: x in Inserted(es, e) <==> x == e || x in es
  {
    InsertedIsOrdered(es, e);
    forall x ensures x in Inserted(es, e) <==> x == e || x in es {
      InsertedHas(es, e, x);
    }
    hide LowerBound, Sorted;
  }

  /** The earliest entry after an insertion. */
  lemma FirstInserted(es: seq<Entry>, e: Entry)
    ensures Inserted(es, e) != []
    ensures Inserted(es, e)[0].0 == if es == [] || e.0 < es[0].0 then e.0 else es[0].0
  {
  }

  function IndexOf(es: seq<Entry>, e: Entry): (k: nat)
    requires e in es
    ensures k < |es| && es[k] == e
  {
    if es[0] == e then 0 else 1 + IndexOf(es[1..], e)
  }

  function Erased(es: seq<Entry>, e: Entry): seq<Entry>
    requires e in es
  {
    var k := IndexOf(es, e); es[..k] + es[k + 1..]
  }

  lemma ErasedIsSorted(es: seq<Entry>, e: Entry)
    requires Sorted(es) && e in es
    ensures Sorted(Erased(es, e)) && |Erased(es, e)| == |es| - 1
    ensures forall x :: x in Erased(es, e) <==> x != e && x in es
  {
    var k := IndexOf(es, e);
    assert es == es[..k] + [e] + es[k + 1..];
    forall i | 0 <= i < |es| && i != k ensures es[i] != e {
      assert i < k ==> Less(es[i], es[k]);
      assert k < i ==> Less(es[k], es[i]);
    }
  }
}
