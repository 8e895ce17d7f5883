/** The array heap behind the queue, proved to pop in the order of a sorted sequence. */
module BinaryHeaps {
  import opened Base
  import opened QueueOrder

  function Parent(i: nat): nat
    requires i >= 1
  {
    (i - 1) / 2
  }

  ghost predicate HeapOrdered(v: seq<Item>) {
    forall j {:trigger Parent(j)} :: 1 <= j < |v| ==> NoLater(v[Parent(j)], v[j])
  }

  /** Heap order except between `k` and its parent, whose children are already below it. */
  ghost predicate OrderedExceptAbove(v: seq<Item>, k: nat) {
    && k < |v|
    && (forall j {:trigger Parent(j)} :: 1 <= j < |v| && j != k ==> NoLater(v[Parent(j)], v[j]))
    && (forall j {:trigger Parent(j)} :: 1 <= j < |v| && Parent(j) == k && k >= 1 ==> NoLater(v[Parent(k)], v[j]))
  }

  /** Heap order except between `k` and its children. */
  ghost predicate OrderedExceptBelow(v: seq<Item>, k: nat) {
    && (forall j {:trigger Parent(j)} :: 1 <= j < |v| && Parent(j) != k ==> NoLater(v[Parent(j)], v[j]))
    && (forall j {:trigger Parent(j)} :: 1 <= j < |v| && Parent(j) == k && k >= 1 ==> NoLater(v[Parent(k)], v[j]))
  }

  function Swap(v: seq<Item>, i: nat, j: nat): (r: seq<Item>)
    requires i < |v| && j < |v|
    ensures |r| == |v| && r[i] == v[j] && r[j] == v[i]
    ensures forall k :: 0 <= k < |v| && k != i && k != j ==> r[k] == v[k]
    ensures multiset(r) == multiset(v)
  {
    v[i := v[j]][j := v[i]]
  }

  lemma {:induction false} RootIsFirst(v: seq<Item>, j: nat)
    requires HeapOrdered(v) && j < |v|
    ensures NoLater(v[0], v[j])
    decreases j
  {
    if j > 0 {
      RootIsFirst(v, Parent(j));
      assert NoLater(v[Parent(j)], v[j]);
    }
  }

  /** One step of sifting down: the smaller child takes its parent's place. */
  lemma SwapDown(v: seq<Item>, k: nat, child: nat)
    requires OrderedExceptBelow(v, k)
    requires 1 <= child < |v| && Parent(child) == k && Before(v[child], v[k])
    requires forall j :: 1 <= j < |v| && Parent(j) == k ==> NoLater(v[child], v[j])
    ensures OrderedExceptBelow(Swap(v, child, k), child)
  {
    var w := Swap(v, child, k);
    forall j | 1 <= j < |w| && Parent(j) != child
      ensures NoLater(w[Parent(j)], w[j])
    {
      assert j != k ==> Parent(j) != k ==> NoLater(v[Parent(j)], v[j]);
      assert k >= 1 ==> NoLater(v[Parent(k)], v[child]);
    }
    forall j | 1 <= j < |w| && Parent(j) == child
      ensures NoLater(w[Parent(child)], w[j])
    {
      assert j != child && j != k && w[j] == v[j];
    }
  }

  /** One step of sifting up. */
  lemma SwapUp(v: seq<Item>, k: nat)
    requires OrderedExceptAbove(v, k) && k > 0 && Before(v[k], v[Parent(k)])
    ensures OrderedExceptAbove(Swap(v, k, Parent(k)), Parent(k))
  {
    var up := Parent(k);
    var w := Swap(v, k, up);
    forall j | 1 <= j < |w| && j != up
      ensures NoLater(w[Parent(j)], w[j])
    {
      SwapUpAt(v, k, j);
    }
    forall j | 1 <= j < |w| && Parent(j) == up && up >= 1
      ensures NoLater(w[Parent(up)], w[j])
    {
      SwapUpBelow(v, k, j);
    }
  }

  lemma SwapUpAt(v: seq<Item>, k: nat, j: nat)
    requires OrderedExceptAbove(v, k) && k > 0 && Before(v[k], v[Parent(k)])
    requires 1 <= j < |v| && j != Parent(k)
    ensures var w := Swap(v, k, Parent(k)); NoLater(w[Parent(j)], w[j])
  {
    if j != k {
      assert NoLater(v[Parent(j)], v[j]);
      if Parent(j) == k {
        assert NoLater(v[Parent(k)], v[j]);
      }
    }
  }

  lemma SwapUpBelow(v: seq<Item>, k: nat, j: nat)
    requires OrderedExceptAbove(v, k) && k > 0
    requires 1 <= j < |v| && Parent(j) == Parent(k) && Parent(k) >= 1
    ensures var w := Swap(v, k, Parent(k)); NoLater(w[Parent(Parent(k))], w[j])
  {
    var up := Parent(k);
    assert NoLater(v[Parent(up)], v[up]);
    if j != k {
      assert NoLater(v[up], v[j]);
    }
  }

  lemma DoneAbove(v: seq<Item>, k: nat)
    requires OrderedExceptAbove(v, k) && (k > 0 ==> NoLater(v[Parent(k)], v[k]))
    ensures HeapOrdered(v)
  {
  }

  lemma ChildrenOf(v: seq<Item>, k: nat, child: nat)
    requires 2 * k + 1 < |v| && (child == 2 * k + 1 || (child == 2 * k + 2 && child < |v|))
    requires NoLater(v[child], v[2 * k + 1]) && (2 * k + 2 < |v| ==> NoLater(v[child], v[2 * k + 2]))
    ensures Parent(child) == k
    ensures forall j :: 1 <= j < |v| && Parent(j) == k ==> NoLater(v[child], v[j])
  {
    assert forall j :: 1 <= j < |v| && Parent(j) == k ==> j == 2 * k + 1 || j == 2 * k + 2;
  }

  lemma ChildrenNoLater(v: seq<Item>, k: nat, child: nat)
    requires k < |v| && child < |v| && NoLater(v[k], v[child])
    requires forall j :: 1 <= j < |v| && Parent(j) == k ==> NoLater(v[child], v[j])
    ensures forall j :: 1 <= j < |v| && Parent(j) == k ==> NoLater(v[k], v[j])
  {
  }

  lemma DoneBelow(v: seq<Item>, k: nat)
    requires OrderedExceptBelow(v, k)
    requires forall j :: 1 <= j < |v| && Parent(j) == k ==> NoLater(v[k], v[j])
    ensures HeapOrdered(v)
  {
  }

  /** Moving the last item to the root disturbs only the root. */
  lemma LastToRoot(v: seq<Item>)
    requires HeapOrdered(v) && v != []
    ensures OrderedExceptBelow(Swap(v, 0, |v| - 1)[..|v| - 1], 0)
  {
    var w := Swap(v, 0, |v| - 1)[..|v| - 1];
    forall j | 1 <= j < |w| && Parent(j) != 0
      ensures NoLater(w[Parent(j)], w[j])
    {
      assert w[j] == v[j] && w[Parent(j)] == v[Parent(j)];
    }
  }

  lemma RootIsSortedHead(v: seq<Item>, q: seq<Item>)
    requires HeapOrdered(v) && StrictlySorted(q) && multiset(v) == multiset(q) && v != []
    ensures q != [] && v[0] == q[0]
  {
    SameMembers(v, q);
    assert v[0] in q;
    forall y | y in q
      ensures NoLater(v[0], y)
    {
      var i :| 0 <= i < |v| && v[i] == y;
      RootIsFirst(v, i);
    }
    FirstIsHead(q, v[0]);
  }

  lemma Cancel(a: multiset<Item>, b: multiset<Item>, c: multiset<Item>)
    requires a + c == b + c
    ensures a == b
  {
    assert a == (a + c) - c;
  }

  /** Taking the root off the heap takes the head off the sorted sequence. */
  lemma PopRemovesHead(v: seq<Item>, q: seq<Item>)
    requires v != [] && q != [] && v[0] == q[0] && multiset(v) == multiset(q)
    ensures multiset(Swap(v, 0, |v| - 1)[..|v| - 1]) == multiset(q[1..])
  {
    var all := Swap(v, 0, |v| - 1);
    assert all == all[..|v| - 1] + [v[0]];
    assert q == [v[0]] + q[1..];
    Cancel(multiset(all[..|v| - 1]), multiset(q[1..]), multiset{v[0]});
  }

  class BinaryHeap {
    var v: seq<Item>
    /** The sorted sequence the heap stands for. */
    ghost var q: seq<Item>

    ghost predicate Valid()
      reads this
    {
      HeapOrdered(v) && StrictlySorted(q) && multiset(v) == multiset(q)
    }

    constructor ()
      ensures Valid() && q == []
    {
      v := [];
      q := [];
    }

    method Len() returns (n: nat)
      requires Valid()
      ensures n == |q|
    {
      assert |multiset(v)| == |multiset(q)|;
      n := |v|;
    }

    method Push(x: Item)
      requires Valid()
      requires forall y :: y in q ==> !SameKey(x, y)
      modifies this
      ensures Valid()
      ensures q == Insert(old(q), x)
    {
      v := v + [x];
      q := Insert(q, x);
      InsertSorted(old(q), x);
      SiftUp(|v| - 1);
    }

    method SiftUp(start: nat)
      requires OrderedExceptAbove(v, start)
      modifies this`v
      ensures HeapOrdered(v)
      ensures multiset(v) == multiset(old(v))
    {
      var k := start;
      while k > 0 && Before(v[k], v[Parent(k)])
        invariant OrderedExceptAbove(v, k)
        invariant multiset(v) == multiset(old(v))
      {
        SwapUp(v, k);
        v := Swap(v, k, Parent(k));
        k := Parent(k);
      }
      DoneAbove(v, k);
    }

    /** The pop of the heap is the head of the sorted sequence. */
    method Pop() returns (r: Option<Item>)
      requires Valid()
      modifies this
      ensures Valid()
      ensures old(q) == [] ==> r == None && q == []
      ensures old(q) != [] ==> r == Some(old(q)[0]) && q == old(q)[1..]
    {
      assert |multiset(v)| == |multiset(q)|;
      if v == [] {
        return None;
      }
      RootIsSortedHead(v, q);
      var last := |v| - 1;
      var top := v[0];
      LastToRoot(v);
      PopRemovesHead(v, q);
      v := Swap(v, 0, last)[..last];
      q := q[1..];
      SiftDown();
      r := Some(top);
    }

    method SiftDown()
      requires OrderedExceptBelow(v, 0)
      modifies this`v
      ensures HeapOrdered(v)
      ensures multiset(v) == multiset(old(v))
    {
      var k := 0;
      while 2 * k + 1 < |v|
        invariant OrderedExceptBelow(v, k)
        invariant multiset(v) == multiset(old(v))
        decreases |v| - k
      {
        var child := 2 * k + 1;
        if child + 1 < |v| && Before(v[child + 1], v[child]) {
          child := child + 1;
        }
        ChildrenOf(v, k, child);
        if !Before(v[child], v[k]) {
          ChildrenNoLater(v, k, child);
          DoneBelow(v, k);
          return;
        }
        SwapDown(v, k, child);
        v := Swap(v, child, k);
        k := child;
      }
      DoneBelow(v, k);
    }
  }
}
