/**
 * The priority queue of pathfinder.py: a list of `(cost, id)` tuples
 * handled by `heapq`. `heappush` adds a tuple and `heappop` removes the
 * least one in Python's tuple order, cost first and then the id as a
 * string.
 */
module HeapQueue {

  import opened Graphs

  /** One queued tuple `(cost, node_id)`. */
  datatype Entry = Entry(cost: nat, id: Id)

  /** Python's `a < b` on strings: lexicographic by code point, a proper prefix first. */
  predicate StrLess(a: string, b: string)
    decreases |a|
  {
    if a == [] then b != []
    else if b == [] then false
    else if a[0] != b[0] then a[0] < b[0]
    else StrLess(a[1..], b[1..])
  }

  /** Python's `a < b` on `(cost, id)` tuples. */
  predicate EntryLess(a: Entry, b: Entry) {
    a.cost < b.cost || (a.cost == b.cost && StrLess(a.id, b.id))
  }

  lemma {:induction false} StrLessIrreflexive(a: string)
    ensures !StrLess(a, a)
    decreases |a|
  {
    if a != [] {
      StrLessIrreflexive(a[1..]);
    }
  }

  lemma {:induction false} StrLessTransitive(a: string, b: string, c: string)
    requires StrLess(a, b) && StrLess(b, c)
    ensures StrLess(a, c)
    decreases |a|
  {
    if a != [] && a[0] == b[0] && b[0] == c[0] {
      StrLessTransitive(a[1..], b[1..], c[1..]);
    }
  }

  /** Two different strings are ordered one way or the other. */
  lemma {:induction false} StrLessTotal(a: string, b: string)
    ensures a == b || StrLess(a, b) || StrLess(b, a)
    decreases |a|
  {
    if a != [] && b != [] && a[0] == b[0] {
      StrLessTotal(a[1..], b[1..]);
      if a[1..] == b[1..] {
        assert a == [a[0]] + a[1..] && b == [b[0]] + b[1..];
      }
    }
  }

  lemma EntryLessTransitive(a: Entry, b: Entry, c: Entry)
    requires EntryLess(a, b) && EntryLess(b, c)
    ensures EntryLess(a, c)
  {
    if a.cost == b.cost == c.cost {
      StrLessTransitive(a.id, b.id, c.id);
    }
  }

  /** The position of the least entry, the last one if several are equal. */
  function ArgMin(q: seq<Entry>): (i: nat)
    requires q != []
    ensures i < |q| && forall k :: 0 <= k < |q| ==> !EntryLess(q[k], q[i])
    decreases |q|
  {
    if |q| == 1 then
      StrLessIrreflexive(q[0].id);
      0
    else
      var j := ArgMin(q[..|q| - 1]);
      if EntryLess(q[|q| - 1], q[j]) then
        LastIsLeast(q, j);
        |q| - 1
      else
        assert forall k :: 0 <= k < |q| - 1 ==> q[k] == q[..|q| - 1][k];
        j
  }

  /** An entry less than the least of the others is the least of all. */
  lemma LastIsLeast(q: seq<Entry>, j: nat)
    requires 0 <= j < |q| - 1 && EntryLess(q[|q| - 1], q[j])
    requires var p := q[..|q| - 1]; forall k :: 0 <= k < |p| ==> !EntryLess(p[k], p[j])
    ensures forall k :: 0 <= k < |q| ==> !EntryLess(q[k], q[|q| - 1])
  {
    forall k | 0 <= k < |q|
      ensures !EntryLess(q[k], q[|q| - 1])
    {
      if k == |q| - 1 {
        StrLessIrreflexive(q[k].id);
      } else if EntryLess(q[k], q[|q| - 1]) {
        assert q[..|q| - 1][k] == q[k] && q[..|q| - 1][j] == q[j];
        EntryLessTransitive(q[k], q[|q| - 1], q[j]);
      }
    }
  }

  /**
   * `heapq.heappop`: remove and return an entry no other entry is less
   * than; every other entry stays queued.
   */
  function Pop(q: seq<Entry>): (r: (Entry, seq<Entry>))
    requires q != []
    ensures r.0 in q && forall k :: 0 <= k < |q| ==> !EntryLess(q[k], r.0)
    ensures multiset(q) == multiset(r.1) + multiset{r.0}
  {
    var i := ArgMin(q);
    assert q == q[..i] + [q[i]] + q[i + 1..];
    (q[i], q[..i] + q[i + 1..])
  }

  /** What `heappop` leaves behind: the other entries, and nothing new. */
  lemma PopLeavesOthers(q: seq<Entry>, e: Entry, rest: seq<Entry>)
    requires multiset(q) == multiset(rest) + multiset{e}
    ensures forall x :: x in rest ==> x in q
    ensures forall x :: x in q && x != e ==> x in rest
  {
    forall x | x in rest
      ensures x in q
    {
      assert x in multiset(rest);
      assert x in multiset(q);
    }
    forall x | x in q && x != e
      ensures x in rest
    {
      assert x in multiset(q);
      assert x in multiset(rest);
    }
  }

  /** The least entry is least in cost: the search relies on nothing more. */
  lemma PoppedIsCheapest(q: seq<Entry>, e: Entry)
    requires forall k :: 0 <= k < |q| ==> !EntryLess(q[k], e)
    ensures forall x :: x in q ==> e.cost <= x.cost
  {
  }

  /** Only one tuple is ever least: a popped entry is determined by the queue's contents. */
  lemma PopIsDetermined(q: seq<Entry>, e1: Entry, e2: Entry)
    requires e1 in q && e2 in q
    requires forall k :: 0 <= k < |q| ==> !EntryLess(q[k], e1)
    requires forall k :: 0 <= k < |q| ==> !EntryLess(q[k], e2)
    ensures e1 == e2
  {
    StrLessTotal(e1.id, e2.id);
  }
}
