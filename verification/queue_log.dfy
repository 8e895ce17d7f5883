/** Histories of a bounded priority queue: what was accepted and what was popped, in order.
    The theorems here hold of every legal history; the protocol shows that every run of the
    threads produces one. */
module QueueLog {
  import opened Base
  import opened QueueOrder

  datatype Event = Accepted(item: Item) | Popped(item: Item)

  /** The queue after the first `n` events. */
  function QueueAt(log: seq<Event>, n: nat): seq<Item>
    requires n <= |log|
  {
    if n == 0 then [] else
    var q := QueueAt(log, n - 1);
    match log[n - 1]
    case Accepted(x) => Insert(q, x)
    case Popped(_) => if q == [] then [] else q[1..]
  }

  /** How many of the first `n` events are acceptances: the sequence counter. */
  function CountAt(log: seq<Event>, n: nat): nat
    requires n <= |log|
  {
    if n == 0 then 0 else CountAt(log, n - 1) + if log[n - 1].Accepted? then 1 else 0
  }

  /** An acceptance needs room and takes the next sequence number; a pop takes the head. */
  ghost predicate LegalAt(log: seq<Event>, max: nat, n: nat)
    requires n < |log|
  {
    match log[n]
    case Accepted(x) => |QueueAt(log, n)| < max && x.sequence == CountAt(log, n) + 1 && x.priority >= 0
    case Popped(x) => QueueAt(log, n) != [] && x == QueueAt(log, n)[0]
  }

  ghost predicate Legal(log: seq<Event>, max: nat) {
    forall n: nat :: n < |log| ==> LegalAt(log, max, n)
  }

  function AcceptedItems(log: seq<Event>): seq<Item> {
    if log == [] then []
    else AcceptedItems(log[..|log| - 1]) + if log[|log| - 1].Accepted? then [log[|log| - 1].item] else []
  }

  function PoppedItems(log: seq<Event>): seq<Item> {
    if log == [] then []
    else PoppedItems(log[..|log| - 1]) + if log[|log| - 1].Popped? then [log[|log| - 1].item] else []
  }

  lemma {:induction false} SamePrefix(log: seq<Event>, more: seq<Event>, n: nat)
    requires n <= |log| <= |more| && more[..|log|] == log
    ensures QueueAt(more, n) == QueueAt(log, n)
    ensures CountAt(more, n) == CountAt(log, n)
  {
    if n > 0 {
      SamePrefix(log, more, n - 1);
      assert more[n - 1] == more[..|log|][n - 1];
    }
  }

  /** A legal history stays legal when a legal event is added. */
  lemma ExtendLegal(log: seq<Event>, max: nat, e: Event)
    requires Legal(log, max)
    requires match e
             case Accepted(x) => |QueueAt(log, |log|)| < max && x.sequence == CountAt(log, |log|) + 1 && x.priority >= 0
             case Popped(x) => QueueAt(log, |log|) != [] && x == QueueAt(log, |log|)[0]
    ensures Legal(log + [e], max)
    ensures QueueAt(log + [e], |log| + 1) ==
            match e case Accepted(x) => Insert(QueueAt(log, |log|), x) case Popped(_) => QueueAt(log, |log|)[1..]
    ensures CountAt(log + [e], |log| + 1) == CountAt(log, |log|) + if e.Accepted? then 1 else 0
    ensures AcceptedItems(log + [e]) == AcceptedItems(log) + if e.Accepted? then [e.item] else []
    ensures PoppedItems(log + [e]) == PoppedItems(log) + if e.Popped? then [e.item] else []
  {
    var more := log + [e];
    assert more[..|log|] == log;
    SamePrefix(log, more, |log|);
    forall n: nat | n < |more|
      ensures LegalAt(more, max, n)
    {
      SamePrefix(log, more, n);
      if n < |log| {
        assert LegalAt(log, max, n);
      }
    }
  }

  lemma {:induction false} PrefixLegal(log: seq<Event>, max: nat, n: nat)
    requires Legal(log, max) && n <= |log|
    ensures Legal(log[..n], max)
    ensures QueueAt(log[..n], n) == QueueAt(log, n) && CountAt(log[..n], n) == CountAt(log, n)
  {
    assert log[..|log[..n]|] == log[..n];
    SamePrefix(log[..n], log, n);
    forall k: nat | k < n
      ensures LegalAt(log[..n], max, k)
    {
      assert LegalAt(log, max, k);
      SamePrefix(log[..n], log, k);
    }
  }

  /** Depth never exceeds the limit, the queue is strictly sorted, and the sequence numbers in
      it are distinct and at most the counter. */
  lemma {:induction false} QueueInvariant(log: seq<Event>, max: nat, n: nat)
    requires Legal(log, max) && n <= |log|
    ensures |QueueAt(log, n)| <= max
    ensures StrictlySorted(QueueAt(log, n))
    ensures SequencesUpTo(QueueAt(log, n), CountAt(log, n))
    ensures DistinctSequences(QueueAt(log, n))
  {
    if n > 0 {
      QueueInvariant(log, max, n - 1);
      assert LegalAt(log, max, n - 1);
      var q := QueueAt(log, n - 1);
      if log[n - 1].Accepted? {
        InsertSorted(q, log[n - 1].item);
        InsertMembers(q, log[n - 1].item);
        InsertKeepsDistinct(q, log[n - 1].item);
      }
    }
  }

  lemma {:induction false} CountMonotone(log: seq<Event>, i: nat, j: nat)
    requires i <= j <= |log|
    ensures CountAt(log, i) <= CountAt(log, j)
    ensures i < j && log[i].Accepted? ==> CountAt(log, i) < CountAt(log, j)
    decreases j
  {
    if i < j {
      CountMonotone(log, i, j - 1);
    }
  }

  lemma QueuedBefore(log: seq<Event>, j: nat, y: Item)
    requires 0 < j <= |log| && y in QueueAt(log, j)
    ensures log[j - 1] == Accepted(y) || y in QueueAt(log, j - 1)
  {
    if log[j - 1].Accepted? {
      InsertMembers(QueueAt(log, j - 1), log[j - 1].item);
    }
  }

  /** Whatever is queued at `j` was queued at `i` or accepted in between. */
  lemma {:induction false} Arrival(log: seq<Event>, i: nat, j: nat, y: Item) returns (m: nat)
    requires i <= j <= |log| && y in QueueAt(log, j) && y !in QueueAt(log, i)
    ensures i <= m < j && log[m] == Accepted(y)
    decreases j
  {
    QueuedBefore(log, j, y);
    if log[j - 1] == Accepted(y) {
      m := j - 1;
    } else {
      m := Arrival(log, i, j - 1, y);
    }
  }

  /** Conservation: what was accepted is what is queued together with what was popped. */
  lemma {:induction false} Conservation(log: seq<Event>, max: nat)
    requires Legal(log, max)
    ensures multiset(AcceptedItems(log)) == multiset(QueueAt(log, |log|)) + multiset(PoppedItems(log))
  {
    if log != [] {
      var n := |log| - 1;
      var init := log[..n];
      PrefixLegal(log, max, n);
      Conservation(init, max);
      assert LegalAt(log, max, n);
      ConservationStep(QueueAt(log, n), AcceptedItems(init), PoppedItems(init), log[n]);
    }
  }

  lemma ConservationStep(q: seq<Item>, accepted: seq<Item>, popped: seq<Item>, e: Event)
    requires multiset(accepted) == multiset(q) + multiset(popped)
    requires e.Popped? ==> q != [] && e.item == q[0]
    ensures e.Accepted? ==> multiset(accepted + [e.item]) == multiset(Insert(q, e.item)) + multiset(popped)
    ensures e.Popped? ==> multiset(accepted) == multiset(q[1..]) + multiset(popped + [e.item])
  {
    if e.Popped? {
      assert q == [q[0]] + q[1..];
    }
  }

  /** A popped item leaves for good: everything popped later is a different, later item. */
  lemma PopOrder(log: seq<Event>, max: nat, i: nat, j: nat)
    requires Legal(log, max) && i < j < |log| && log[i].Popped? && log[j].Popped?
    ensures Before(log[i].item, log[j].item) || log[i].item.sequence < log[j].item.sequence
  {
    var x, y := log[i].item, log[j].item;
    assert LegalAt(log, max, i) && LegalAt(log, max, j);
    QueueInvariant(log, max, i);
    if y in QueueAt(log, i + 1) {
      var k :| 0 <= k < |QueueAt(log, i)[1..]| && QueueAt(log, i)[1..][k] == y;
      assert Before(QueueAt(log, i)[0], QueueAt(log, i)[k + 1]);
    } else {
      var m := Arrival(log, i + 1, j, y);
      assert LegalAt(log, max, m);
      CountMonotone(log, i, m);
      assert x in QueueAt(log, i);
    }
  }

  /** Within one priority the queue is first in, first out, over the whole history. */
  lemma FirstInFirstOut(log: seq<Event>, max: nat, i: nat, j: nat)
    requires Legal(log, max) && i < j < |log| && log[i].Popped? && log[j].Popped?
    requires log[i].item.priority == log[j].item.priority
    ensures log[i].item.sequence < log[j].item.sequence
  {
    PopOrder(log, max, i, j);
  }

  lemma {:induction false} PoppedOccurs(log: seq<Event>, x: Item)
    requires x in PoppedItems(log)
    ensures exists i :: 0 <= i < |log| && log[i] == Popped(x)
  {
    var n := |log| - 1;
    if log[n] != Popped(x) {
      PoppedOccurs(log[..n], x);
      var i :| 0 <= i < n && log[..n][i] == Popped(x);
      assert log[i] == Popped(x);
    }
  }

  /** The pops of any one priority have strictly increasing sequence numbers, and no item is
      popped twice. */
  lemma {:induction false} PopsIncrease(log: seq<Event>, max: nat, a: nat, b: nat)
    requires Legal(log, max) && a < b < |PoppedItems(log)|
    ensures PoppedItems(log)[a] != PoppedItems(log)[b]
    ensures PoppedItems(log)[a].priority == PoppedItems(log)[b].priority
            ==> PoppedItems(log)[a].sequence < PoppedItems(log)[b].sequence
  {
    var n := |log| - 1;
    var init := log[..n];
    PrefixLegal(log, max, n);
    if b < |PoppedItems(init)| {
      PopsIncrease(init, max, a, b);
    } else {
      var x := PoppedItems(init)[a];
      assert x in PoppedItems(init);
      PoppedOccurs(init, x);
      var i :| 0 <= i < n && init[i] == Popped(x);
      assert log[i] == Popped(x);
      PopOrder(log, max, i, n);
    }
  }

  /** An accepted item is queued at every moment until its pop. */
  lemma StaysQueued(log: seq<Event>, max: nat, a: nat, j: nat, k: nat)
    requires Legal(log, max) && a < j <= k < |log|
    requires log[a].Accepted? && log[k] == Popped(log[a].item)
    ensures log[a].item in QueueAt(log, j)
  {
    var x := log[a].item;
    assert LegalAt(log, max, a) && LegalAt(log, max, k);
    assert x in QueueAt(log, k);
    if x !in QueueAt(log, j) {
      var m := Arrival(log, j, k, x);
      assert LegalAt(log, max, m);
      CountMonotone(log, a, m);
    }
  }

  /** Overtaking: between the acceptance of `x` and its pop, every other pop is of an item that
      was already waiting when `x` was accepted and has no larger priority number, or of one
      accepted later that has a strictly smaller priority number. */
  lemma Overtaking(log: seq<Event>, max: nat, a: nat, j: nat, k: nat)
    requires Legal(log, max) && a < j < k < |log|
    requires log[a].Accepted? && log[k] == Popped(log[a].item) && log[j].Popped?
    ensures OvertakesAt(log, a, j)
  {
    StaysQueued(log, max, a, j + 1, k);
    OvertakesQueued(log, max, a, j);
  }

  /** The pop at `j` is of an item that waited at the acceptance at `a` with no larger priority
      number, or of one accepted since with a strictly smaller one. */
  ghost predicate OvertakesAt(log: seq<Event>, a: nat, j: nat)
    requires a < j < |log|
  {
    var x, y := log[a].item, log[j].item;
    || (y in QueueAt(log, a) && y.priority <= x.priority)
    || (y.priority < x.priority && exists m :: a < m < j && log[m] == Accepted(y))
  }

  lemma OvertakesQueued(log: seq<Event>, max: nat, a: nat, j: nat)
    requires Legal(log, max) && a < j < |log| && log[a].Accepted? && log[j].Popped?
    requires log[a].item in QueueAt(log, j + 1)
    ensures OvertakesAt(log, a, j)
  {
    var y := log[j].item;
    PoppedIsBefore(log, max, j, log[a].item);
    if y !in QueueAt(log, a) {
      var m := Arrival(log, a, j, y);
      AcceptedInOrder(log, max, a, m);
    }
  }

  lemma AcceptedInOrder(log: seq<Event>, max: nat, a: nat, m: nat)
    requires Legal(log, max) && a < m < |log| && log[a].Accepted? && log[m].Accepted?
    ensures log[a].item.sequence < log[m].item.sequence
  {
    assert LegalAt(log, max, a) && LegalAt(log, max, m);
    CountMonotone(log, a, m);
  }

  /** What is popped goes before what stays. */
  lemma PoppedIsBefore(log: seq<Event>, max: nat, j: nat, x: Item)
    requires Legal(log, max) && j < |log| && log[j].Popped? && x in QueueAt(log, j + 1)
    ensures Before(log[j].item, x) && log[j].item in QueueAt(log, j)
  {
    assert LegalAt(log, max, j);
    QueueInvariant(log, max, j);
    var q := QueueAt(log, j);
    var p :| 0 <= p < |q[1..]| && q[1..][p] == x;
    assert Before(q[0], q[p + 1]);
  }

  /** The items popped at positions `a < j < k` that were already queued at `a`. */
  function OldPops(log: seq<Event>, a: nat, k: nat): (r: seq<Item>)
    requires a < k <= |log|
  {
    if k == a + 1 then []
    else
      OldPops(log, a, k - 1) +
      if log[k - 1].Popped? && log[k - 1].item in QueueAt(log, a) then [log[k - 1].item] else []
  }

  lemma {:induction false} OldPopsDistinct(log: seq<Event>, max: nat, a: nat, k: nat)
    requires Legal(log, max) && a < k <= |log|
    ensures forall y :: y in OldPops(log, a, k) ==> y in QueueAt(log, a)
    ensures forall y :: y in OldPops(log, a, k) ==> exists j :: a < j < k && log[j] == Popped(y)
    ensures forall i, j :: 0 <= i < j < |OldPops(log, a, k)| ==> OldPops(log, a, k)[i] != OldPops(log, a, k)[j]
    decreases k
  {
    if k > a + 1 {
      OldPopsDistinct(log, max, a, k - 1);
      forall y | y in OldPops(log, a, k - 1)
        ensures log[k - 1] != Popped(y)
      {
        var j :| a < j < k - 1 && log[j] == Popped(y);
        if log[k - 1].Popped? {
          PopOrder(log, max, j, k - 1);
        }
      }
    }
  }

  lemma {:induction false} DistinctWithin(p: seq<Item>, q: seq<Item>)
    requires forall y :: y in p ==> y in q
    requires forall i, j :: 0 <= i < j < |p| ==> p[i] != p[j]
    ensures |p| <= |q|
  {
    if p != [] {
      assert p[0] in p && p[0] in q;
      var n :| 0 <= n < |q| && q[n] == p[0];
      var r := q[..n] + q[n + 1..];
      forall y | y in p[1..]
        ensures y in r
      {
        var i :| 0 <= i < |p[1..]| && p[1..][i] == y;
        assert p[0] != p[i + 1];
        assert p[i + 1] in p && y in q;
        var m :| 0 <= m < |q| && q[m] == y;
        assert m < n || r[m - 1] == y;
      }
      DistinctWithin(p[1..], r);
    }
  }

  /** At most `max - 1` of the items that waited at an acceptance can overtake it. */
  lemma OvertakingBound(log: seq<Event>, max: nat, a: nat, k: nat)
    requires Legal(log, max) && a < k <= |log| && log[a].Accepted?
    ensures |OldPops(log, a, k)| <= max - 1
  {
    assert LegalAt(log, max, a);
    OldPopsDistinct(log, max, a, k);
    DistinctWithin(OldPops(log, a, k), QueueAt(log, a));
  }

  // ---------- Progress ----------

  lemma {:induction false} PoppedItemsSplit(before: seq<Event>, after: seq<Event>)
    ensures PoppedItems(before + after) == PoppedItems(before) + PoppedItems(after)
  {
    if after == [] {
      assert before + after == before;
      assert PoppedItems(before) + [] == PoppedItems(before);
    } else {
      var init, e := after[..|after| - 1], after[|after| - 1];
      assert (before + after)[..|before + after| - 1] == before + init;
      PoppedItemsSplit(before, init);
      Reassociate(PoppedItems(before), PoppedItems(init), if e.Popped? then [e.item] else []);
    }
  }

  lemma {:induction false} AcceptedOccurs(log: seq<Event>, i: nat)
    requires i < |log| && log[i].Accepted?
    ensures log[i].item in AcceptedItems(log)
  {
    if i < |log| - 1 {
      AcceptedOccurs(log[..|log| - 1], i);
    }
  }

  /** The items with a priority number below `priority`. */
  function Smaller(items: seq<Item>, priority: int): seq<Item> {
    if items == [] then []
    else (if items[0].priority < priority then [items[0]] else []) + Smaller(items[1..], priority)
  }

  lemma {:induction false} SmallerMember(items: seq<Item>, priority: int, y: Item)
    requires y in items && y.priority < priority
    ensures y in Smaller(items, priority)
  {
    if y != items[0] {
      SmallerMember(items[1..], priority, y);
    }
  }

  lemma QueuedAfter(log: seq<Event>, max: nat, n: nat, y: Item)
    requires n < |log| && LegalAt(log, max, n) && y in QueueAt(log, n) && log[n] != Popped(y)
    ensures y in QueueAt(log, n + 1)
  {
    var q := QueueAt(log, n);
    if log[n].Accepted? {
      InsertMembers(q, log[n].item);
    } else {
      assert q == [q[0]] + q[1..];
    }
  }

  /** An accepted item that has not been popped is queued. */
  lemma {:induction false} StillQueued(log: seq<Event>, max: nat, a: nat, n: nat)
    requires Legal(log, max) && a < n <= |log| && log[a].Accepted?
    requires forall j :: a < j < n ==> log[j] != Popped(log[a].item)
    ensures log[a].item in QueueAt(log, n)
    decreases n
  {
    if n == a + 1 {
      InsertMembers(QueueAt(log, a), log[a].item);
    } else {
      StillQueued(log, max, a, n - 1);
      assert LegalAt(log, max, n - 1);
      QueuedAfter(log, max, n - 1, log[a].item);
    }
  }

  lemma PopsSinceDistinct(log: seq<Event>, max: nat, a: nat)
    requires Legal(log, max) && a < |log|
    ensures NoRepeats(PoppedItems(log[a + 1..]))
  {
    var before, since := log[..a + 1], log[a + 1..];
    assert log == before + since;
    PoppedItemsSplit(before, since);
    var n := |PoppedItems(before)|;
    forall i, j | 0 <= i < j < |PoppedItems(since)|
      ensures PoppedItems(since)[i] != PoppedItems(since)[j]
    {
      PopsIncrease(log, max, n + i, n + j);
    }
  }

  lemma OvertakerFrom(log: seq<Event>, max: nat, a: nat, j: nat)
    requires Legal(log, max) && a < j < |log| && log[a].Accepted? && log[j].Popped? && OvertakesAt(log, a, j)
    ensures log[j].item in QueueAt(log, a) + Smaller(AcceptedItems(log[a + 1..]), log[a].item.priority)
  {
    var y, since := log[j].item, log[a + 1..];
    if y !in QueueAt(log, a) {
      var m :| a < m < j && log[m] == Accepted(y);
      assert since[m - a - 1] == log[m];
      AcceptedOccurs(since, m - a - 1);
      SmallerMember(AcceptedItems(since), log[a].item.priority, y);
    }
  }

  lemma PoppedSinceFrom(log: seq<Event>, max: nat, a: nat, y: Item)
    requires Legal(log, max) && a < |log| && log[a].Accepted?
    requires forall j :: a < j < |log| ==> log[j] != Popped(log[a].item)
    requires y in PoppedItems(log[a + 1..])
    ensures y in QueueAt(log, a) + Smaller(AcceptedItems(log[a + 1..]), log[a].item.priority)
  {
    var j := PoppedSince(log, a, y);
    StillQueued(log, max, a, j + 1);
    OvertakesQueued(log, max, a, j);
    OvertakerFrom(log, max, a, j);
  }

  lemma PoppedSince(log: seq<Event>, a: nat, y: Item) returns (j: nat)
    requires a < |log| && y in PoppedItems(log[a + 1..])
    ensures a < j < |log| && log[j] == Popped(y)
  {
    var since := log[a + 1..];
    PoppedOccurs(since, y);
    var i :| 0 <= i < |since| && since[i] == Popped(y);
    j := a + 1 + i;
  }

  /** Progress: as long as an accepted item has not been popped, the pops since its acceptance
      number at most `max - 1` and the later arrivals with a smaller priority number. So after
      `max` pops and one for each of these it has been popped. */
  lemma PopsBounded(log: seq<Event>, max: nat, a: nat)
    requires Legal(log, max) && a < |log| && log[a].Accepted?
    ensures var ahead := Smaller(AcceptedItems(log[a + 1..]), log[a].item.priority);
            || |PoppedItems(log[a + 1..])| <= max - 1 + |ahead|
            || exists j :: a < j < |log| && log[j] == Popped(log[a].item)
  {
    if forall j :: a < j < |log| ==> log[j] != Popped(log[a].item) {
      var ahead := Smaller(AcceptedItems(log[a + 1..]), log[a].item.priority);
      assert LegalAt(log, max, a);
      PopsSinceDistinct(log, max, a);
      forall y | y in PoppedItems(log[a + 1..])
        ensures y in QueueAt(log, a) + ahead
      {
        PoppedSinceFrom(log, max, a, y);
      }
      DistinctWithin(PoppedItems(log[a + 1..]), QueueAt(log, a) + ahead);
    }
  }
}
