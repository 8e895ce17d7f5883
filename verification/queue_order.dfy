/** The order on queued items, and queues as sequences sorted by it. */
module QueueOrder {
  import opened Base

  datatype Item = Item(priority: int, sequence: nat, data: seq<byte>)

  datatype Ordering = Less | Equal | Greater

  function CompareInts(a: int, b: int): Ordering {
    if a < b then Less else if a == b then Equal else Greater
  }

  /** The comparison the binary heap maximises: lower priority numbers first, older first,
      both reversed. It looks at neither item's data. */
  function Compare(a: Item, b: Item): Ordering {
    match CompareInts(b.priority, a.priority)
    case Equal => CompareInts(b.sequence, a.sequence)
    case other => other
  }

  predicate SameKey(a: Item, b: Item) {
    a.priority == b.priority && a.sequence == b.sequence
  }

  /** `a` leaves the queue before `b`: (priority, sequence) in lexicographic order. */
  predicate Before(a: Item, b: Item) {
    a.priority < b.priority || (a.priority == b.priority && a.sequence < b.sequence)
  }

  predicate NoLater(a: Item, b: Item) {
    !Before(b, a)
  }

  /** The heap maximum is the item that leaves first. The comparison calls two items equal
      exactly when their keys agree, whatever their data. */
  lemma CompareIsReversedKeyOrder(a: Item, b: Item)
    ensures Compare(a, b) == Greater <==> Before(a, b)
    ensures Compare(a, b) == Less <==> Before(b, a)
    ensures Compare(a, b) == Equal <==> SameKey(a, b)
  {
  }

  ghost predicate StrictlySorted(q: seq<Item>) {
    forall i, j :: 0 <= i < j < |q| ==> Before(q[i], q[j])
  }

  ghost predicate DistinctSequences(q: seq<Item>) {
    forall i, j :: 0 <= i < j < |q| ==> q[i].sequence != q[j].sequence
  }

  ghost predicate SequencesUpTo(q: seq<Item>, counter: nat) {
    forall x :: x in q ==> 1 <= x.sequence <= counter
  }

  /** On items with distinct sequence numbers the comparison is a strict total order, even
      between items whose keys differ only in data. */
  lemma CompareIsTotalOnDistinct(q: seq<Item>, i: nat, j: nat)
    requires DistinctSequences(q) && i < |q| && j < |q| && i != j
    ensures Before(q[i], q[j]) != Before(q[j], q[i])
    ensures Compare(q[i], q[j]) != Equal
  {
    if i < j {
      assert q[i].sequence != q[j].sequence;
    } else {
      assert q[j].sequence != q[i].sequence;
    }
  }

  /** `x` put into its place in a sorted queue. */
  function Insert(q: seq<Item>, x: Item): (r: seq<Item>)
    ensures |r| == |q| + 1
    ensures multiset(r) == multiset(q) + multiset{x}
  {
    if q == [] then [x]
    else if Before(x, q[0]) then [x] + q
    else
      assert q == [q[0]] + q[1..];
      [q[0]] + Insert(q[1..], x)
  }

  lemma InsertMembers(q: seq<Item>, x: Item)
    ensures forall y :: y in Insert(q, x) <==> y == x || y in q
  {
    forall y
      ensures y in Insert(q, x) <==> y == x || y in q
    {
      assert y in Insert(q, x) <==> multiset(Insert(q, x))[y] > 0;
      assert y in q <==> multiset(q)[y] > 0;
    }
  }

  lemma {:induction false} InsertSorted(q: seq<Item>, x: Item)
    requires StrictlySorted(q)
    requires forall y :: y in q ==> !SameKey(x, y)
    ensures StrictlySorted(Insert(q, x))
  {
    if q != [] && !Before(x, q[0]) {
      var rest := Insert(q[1..], x);
      InsertSorted(q[1..], x);
      InsertMembers(q[1..], x);
      forall i, j | 0 <= i < j < |rest| + 1
        ensures Before(([q[0]] + rest)[i], ([q[0]] + rest)[j])
      {
        if i == 0 {
          assert rest[j - 1] in rest;
          assert !SameKey(x, q[0]);
        }
      }
    }
  }

  lemma {:induction false} InsertKeepsDistinct(q: seq<Item>, x: Item)
    requires DistinctSequences(q)
    requires forall y :: y in q ==> y.sequence != x.sequence
    ensures DistinctSequences(Insert(q, x))
  {
    if q != [] && !Before(x, q[0]) {
      var rest := Insert(q[1..], x);
      InsertKeepsDistinct(q[1..], x);
      InsertMembers(q[1..], x);
      forall i, j | 0 <= i < j < |rest| + 1
        ensures ([q[0]] + rest)[i].sequence != ([q[0]] + rest)[j].sequence
      {
        if i == 0 {
          assert rest[j - 1] in rest;
        }
      }
    }
  }

  lemma FirstIsHead(q: seq<Item>, x: Item)
    requires StrictlySorted(q) && x in q
    requires forall y :: y in q ==> NoLater(x, y)
    ensures x == q[0]
  {
    var j :| 0 <= j < |q| && q[j] == x;
    assert NoLater(x, q[0]);
    assert j == 0;
  }

  lemma SameMembers(p: seq<Item>, q: seq<Item>)
    requires multiset(p) == multiset(q)
    ensures forall y :: y in p <==> y in q
  {
    forall y
      ensures y in p <==> y in q
    {
      assert y in p <==> y in multiset(p);
      assert y in q <==> y in multiset(q);
    }
  }

  /** A sorted queue is determined by what it holds. */
  lemma {:induction false} SortedUnique(p: seq<Item>, q: seq<Item>)
    requires StrictlySorted(p) && StrictlySorted(q) && multiset(p) == multiset(q)
    ensures p == q
  {
    assert |p| == |multiset(p)| == |multiset(q)| == |q|;
    if p != [] {
      SameMembers(p, q);
      FirstIsHead(q, p[0]);
      assert p == [p[0]] + p[1..] && q == [q[0]] + q[1..];
      assert multiset(p[1..]) == multiset(p) - multiset{p[0]};
      assert multiset(q[1..]) == multiset(q) - multiset{q[0]};
      SortedUnique(p[1..], q[1..]);
    }
  }
}
