/** The serial queue's shared state and its lock regions. Each region is a function on the
    abstract state; the class below implements the regions over the array heap. The threads
    that interleave the regions are in module QueueProtocol. */
module SerialQueues {
  import opened Base
  import opened QueueOrder
  import opened BinaryHeaps

  const MAX_CONSECUTIVE_ERRORS: nat := 3

  datatype Shared = Shared(
    q: seq<Item>, counter: nat, running: bool, disconnected: bool, errors: nat)
  {
    /** Writers and the worker go on only while this holds. */
    predicate Open() {
      running && !disconnected
    }
  }

  const FRESH_QUEUE := Shared([], 0, true, false, 0)

  datatype WorkerChoice = Wait | Exit | Take(item: Item)

  function EnqueueRegion(sh: Shared, max: nat, data: seq<byte>, priority: int): (Shared, bool) {
    if |sh.q| >= max then (sh, false)
    else
      var x := Item(priority, sh.counter + 1, data);
      (sh.(q := Insert(sh.q, x), counter := sh.counter + 1), true)
  }

  function WorkerRegion(sh: Shared): (Shared, WorkerChoice) {
    if !sh.Open() then (sh, Exit)
    else if sh.q == [] then (sh, Wait)
    else (sh.(q := sh.q[1..]), Take(sh.q[0]))
  }

  /** The error_state region after a write: true when this failure is the third in a row. */
  function ErrorRegion(sh: Shared, ok: bool): (Shared, bool) {
    if ok then (sh.(errors := 0), false)
    else (sh.(errors := sh.errors + 1), sh.errors + 1 >= MAX_CONSECUTIVE_ERRORS)
  }

  function DisconnectRegion(sh: Shared): Shared {
    sh.(disconnected := true)
  }

  /** The first region of stop: false when the queue was not running. */
  function StopRegion(sh: Shared): (Shared, bool) {
    if !sh.running then (sh, false)
    else (sh.(running := false, disconnected := true), true)
  }

  class SerialQueue {
    const maxQueueSize: nat
    const heap: BinaryHeap
    var sequenceCounter: nat
    var running: bool
    var deviceDisconnected: bool
    var consecutiveErrors: nat

    ghost predicate Valid()
      reads this, heap
    {
      && heap.Valid()
      && |heap.q| <= maxQueueSize
      && DistinctSequences(heap.q)
      && SequencesUpTo(heap.q, sequenceCounter)
    }

    ghost function Abs(): Shared
      reads this, heap
    {
      Shared(heap.q, sequenceCounter, running, deviceDisconnected, consecutiveErrors)
    }

    /** A queue that has been started. */
    constructor (max: nat)
      ensures Valid() && Abs() == FRESH_QUEUE && maxQueueSize == max
      ensures fresh(heap)
    {
      maxQueueSize := max;
      heap := new BinaryHeap();
      sequenceCounter := 0;
      running := true;
      deviceDisconnected := false;
      consecutiveErrors := 0;
    }

    method Guard() returns (open: bool)
      requires Valid()
      ensures open == Abs().Open()
    {
      open := !(deviceDisconnected || !running);
    }

    method Enqueue(data: seq<byte>, priority: int) returns (accepted: bool)
      requires Valid()
      modifies this`sequenceCounter, heap
      ensures Valid()
      ensures (Abs(), accepted) == EnqueueRegion(old(Abs()), maxQueueSize, data, priority)
    {
      var depth := heap.Len();
      if depth >= maxQueueSize {
        return false;
      }
      sequenceCounter := sequenceCounter + 1;
      var x := Item(priority, sequenceCounter, data);
      KeepsSequences(heap.q, x, sequenceCounter - 1);
      heap.Push(x);
      accepted := true;
    }

    method NextForWorker() returns (choice: WorkerChoice)
      requires Valid()
      modifies heap
      ensures Valid()
      ensures (Abs(), choice) == WorkerRegion(old(Abs()))
    {
      if !running || deviceDisconnected {
        return Exit;
      }
      ghost var q := heap.q;
      var item := heap.Pop();
      assert forall y :: y in heap.q ==> y in q;
      match item {
        case None => choice := Wait;
        case Some(x) => choice := Take(x);
      }
    }

    method AccountWrite(ok: bool) returns (thirdFailure: bool)
      requires Valid()
      modifies this`consecutiveErrors
      ensures Valid()
      ensures (Abs(), thirdFailure) == ErrorRegion(old(Abs()), ok)
    {
      if !ok {
        consecutiveErrors := consecutiveErrors + 1;
        return consecutiveErrors >= MAX_CONSECUTIVE_ERRORS;
      }
      consecutiveErrors := 0;
      thirdFailure := false;
    }

    method MarkDisconnected()
      requires Valid()
      modifies this`deviceDisconnected
      ensures Valid()
      ensures Abs() == DisconnectRegion(old(Abs()))
    {
      if !deviceDisconnected {
        deviceDisconnected := true;
      }
    }

    method RequestStop() returns (wasRunning: bool)
      requires Valid()
      modifies this`running, this`deviceDisconnected
      ensures Valid()
      ensures (Abs(), wasRunning) == StopRegion(old(Abs()))
    {
      if !running {
        return false;
      }
      running := false;
      deviceDisconnected := true;
      wasRunning := true;
    }
  }

  /** The next sequence number keeps the queued numbers distinct and at most the counter, and
      its key is new. */
  lemma KeepsSequences(q: seq<Item>, x: Item, counter: nat)
    requires DistinctSequences(q) && SequencesUpTo(q, counter) && x.sequence == counter + 1
    ensures DistinctSequences(Insert(q, x)) && SequencesUpTo(Insert(q, x), counter + 1)
    ensures forall y :: y in q ==> !SameKey(x, y)
  {
    InsertMembers(q, x);
    InsertKeepsDistinct(q, x);
  }
}
