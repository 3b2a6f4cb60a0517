/**
 * A sequence-backed minimum queue of point codes ordered by priority. It
 * stands in for the binary-heap queue the routing engine uses: pushing
 * appends, popping removes one entry of least priority.
 */
module PriorityQueue {

  /** A queue entry: the code of a stop and the cost it was reached with. */
  datatype PointPriority = PointPriority(code: string, priority: int)

  /** `e` has a priority no larger than any entry of `s`. */
  predicate IsMinimal(e: PointPriority, s: seq<PointPriority>)
  {
    forall x :: x in s ==> e.priority <= x.priority
  }

  /** The index of the first entry of least priority, found by a forward scan. */
  method MinIndex(s: seq<PointPriority>) returns (i: nat)
    requires |s| > 0
    ensures i < |s| && IsMinimal(s[i], s)
    ensures forall j :: 0 <= j < i ==> s[i].priority < s[j].priority
  {
    i := 0;
    var j := 1;
    while j < |s|
      invariant 0 <= i < j <= |s|
      invariant forall t :: 0 <= t < j ==> s[i].priority <= s[t].priority
      invariant forall t :: 0 <= t < i ==> s[i].priority < s[t].priority
    {
      if s[j].priority < s[i].priority {
        i := j;
      }
      j := j + 1;
    }
  }

  class MinQueue {
    /** The entries in insertion order; the order plays no part in which one pops. */
    var elements: seq<PointPriority>

    constructor ()
      ensures elements == []
    {
      elements := [];
    }

    /** Adds an entry. */
    method Push(e: PointPriority)
      modifies this
      ensures elements == old(elements) + [e]
    {
      elements := elements + [e];
    }

    /**
     * Removes and returns an entry of least priority: every other entry stays,
     * and nothing is added.
     */
    method Pop() returns (e: PointPriority)
      requires |elements| > 0
      modifies this
      ensures e in old(elements) && IsMinimal(e, old(elements))
      ensures multiset(elements) + multiset{e} == multiset(old(elements))
      ensures |elements| == |old(elements)| - 1
      ensures forall x :: x in elements ==> x in old(elements)
      ensures forall x :: x in old(elements) && x != e ==> x in elements
    {
      var i := MinIndex(elements);
      e := elements[i];
      assert elements == elements[..i] + [e] + elements[i + 1..];
      elements := elements[..i] + elements[i + 1..];
      forall x | x in old(elements) && x != e
        ensures x in elements
      {
        assert x in multiset(old(elements));
      }
    }
  }
}
