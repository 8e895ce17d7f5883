/** Every fair run of the bridge's shutdown completes. A run is an infinite schedule of steps; it is
    fair when every thread that can step again and again does step. */
module FairShutdown {
  import opened LockOrder
  import opened HybridThreads

  type Schedule = nat -> Label

  /** The state before step `n` of the schedule; steps that are not enabled change nothing. */
  ghost function At(s: System, sched: Schedule, n: nat): System {
    if n == 0 then s else Next(At(s, sched, n - 1), sched(n - 1))
  }

  /** The step is one of thread `u`. */
  ghost predicate Moves(s: System, l: Label, u: nat) {
    Enabled(s, l) && (l == Advance(u) || l == Finish(u) || (l.Begin? && l.t == u))
  }

  ghost predicate MovesAt(s: System, sched: Schedule, u: nat, k: nat) {
    Moves(At(s, sched, k), sched(k), u)
  }

  ghost predicate CanLater(s: System, sched: Schedule, u: nat, m: nat) {
    exists k: nat :: k >= m && CanStep(At(s, sched, k), u)
  }

  /** Thread `u` can step at infinitely many moments from `n` on. */
  ghost predicate OftenCan(s: System, sched: Schedule, u: nat, n: nat) {
    forall m: nat :: m >= n ==> CanLater(s, sched, u, m)
  }

  ghost predicate Fair(s: System, sched: Schedule) {
    forall u: nat, n: nat :: OftenCan(s, sched, u, n) ==> exists k: nat :: k >= n && MovesAt(s, sched, u, k)
  }

  // ---------- Guards are exclusive ----------

  ghost predicate Exclusive(ts: seq<Thread>) {
    forall t: nat, u: nat, l :: t < |ts| && u < |ts| && t != u && l in ts[t].stack ==> l !in ts[u].stack
  }

  lemma NextExclusive(s: System, l: Label)
    requires Inv(s) && Exclusive(s.threads)
    ensures Exclusive(Next(s, l).threads)
  {
    if Enabled(s, l) && l.Advance? {
      AdvanceExclusive(s, l.t);
    }
  }

  lemma AdvanceExclusive(s: System, t: nat)
    requires Inv(s) && Exclusive(s.threads) && t < |s.threads| && s.threads[t].plan != [] && !Blocked(s.threads, t)
    ensures Exclusive(Act(s, t).threads)
  {
    var s' := Act(s, t);
    forall u: nat, x | u < |s.threads| && u != t && x in s'.threads[t].stack
      ensures x !in s.threads[u].stack
    {
      if x !in s.threads[t].stack {
        TakenWasFree(s, t, x);
        assert !Holds(s.threads, u, x);
      }
    }
  }

  lemma TakenWasFree(s: System, t: nat, x: Lock)
    requires t < |s.threads| && s.threads[t].plan != [] && !Blocked(s.threads, t)
    requires x in Act(s, t).threads[t].stack && x !in s.threads[t].stack
    ensures Free(s.threads, x)
  {
    var th := s.threads[t];
    match th.plan[0]
    case Acquire(l) => assert x == l;
    case Release(_) =>
    case QueueStops(_) =>
  }

  lemma {:induction false} ReachableExclusive(s: System, ls: seq<Label>)
    requires Initial(s)
    ensures Inv(Run(s, ls)) && Exclusive(Run(s, ls).threads)
  {
    Reachable(s, ls);
    if ls != [] {
      ReachableExclusive(s, ls[..|ls| - 1]);
      NextExclusive(Run(s, ls[..|ls| - 1]), ls[|ls| - 1]);
    }
  }

  // ---------- What a schedule keeps ----------

  ghost predicate Good(s: System) {
    Inv(s) && s.cleaning && Exclusive(s.threads)
  }

  /** A bridge with nothing but its main thread, in cleanup. */
  const ALONE := System([Thread(MainThread, [], [], false)], true, true, {}, {})

  type Shutdown = s: System | Good(s) ghost witness ALONE

  /** While cleanup runs no thread is added, and only a thread's own step changes it. */
  lemma OthersStay(s: System, l: Label)
    requires Inv(s) && s.cleaning
    ensures |Next(s, l).threads| == |s.threads| && s.closed <= Next(s, l).closed
    ensures forall u: nat :: u < |s.threads| && !Moves(s, l, u) ==> Next(s, l).threads[u] == s.threads[u]
    ensures forall u: nat :: u < |s.threads| ==> Next(s, l).threads[u].role == s.threads[u].role
  {
  }

  lemma {:induction false} AtGood(s: Shutdown, sched: Schedule, n: nat)
    ensures Good(At(s, sched, n)) && |At(s, sched, n).threads| == |s.threads| && s.closed <= At(s, sched, n).closed
    ensures forall u: nat :: u < |s.threads| ==> At(s, sched, n).threads[u].role == s.threads[u].role
  {
    if n > 0 {
      AtGood(s, sched, n - 1);
      var before, l := At(s, sched, n - 1), sched(n - 1);
      NextKeeps(before, l);
      NextExclusive(before, l);
      ShutdownStep(before, l);
      OthersStay(before, l);
    }
  }

  /** A queue that was told to stop stays so. */
  lemma ClosedGrows(s: System, l: Label)
    ensures s.closed <= Next(s, l).closed
  {
  }

  lemma {:induction false} StaysClosed(s: System, sched: Schedule, q: nat, n: nat, m: nat)
    requires n <= m && q in At(s, sched, n).closed
    ensures q in At(s, sched, m).closed
    decreases m
  {
    hide Next, Enabled;
    if n < m {
      StaysClosed(s, sched, q, n, m - 1);
      ClosedGrows(At(s, sched, m - 1), sched(m - 1));
    }
  }

  /** Thread `u` before step `k`. */
  ghost function Thr(s: Shutdown, sched: Schedule, k: nat, w: nat): Thread
    requires w < |s.threads|
  {
    AtGood(s, sched, k);
    At(s, sched, k).threads[w]
  }

  lemma StaysOnce(s: Shutdown, sched: Schedule, u: nat, k: nat, next: nat)
    requires u < |s.threads| && !MovesAt(s, sched, u, k) && next == k + 1
    ensures Thr(s, sched, next, u) == Thr(s, sched, k, u)
  {
    hide Next, Enabled;
    AtGood(s, sched, k);
    OthersStay(At(s, sched, k), sched(k));
  }

  /** A thread stays as it is until it moves. */
  lemma {:induction false} StaysPut(s: Shutdown, sched: Schedule, u: nat, n: nat, m: nat)
    requires u < |s.threads| && n <= m
    requires forall k: nat :: n <= k < m ==> !MovesAt(s, sched, u, k)
    ensures Thr(s, sched, m, u) == Thr(s, sched, n, u)
    decreases m
  {
    hide Thr;
    if n < m {
      StaysPut(s, sched, u, n, m - 1);
      StaysOnce(s, sched, u, m - 1, m);
    }
  }

  // ---------- The main thread and the loops settle ----------

  ghost function Left(s: System, sched: Schedule, n: nat): nat {
    Pending(At(s, sched, n).threads, false)
  }

  lemma LeftStep(s: Shutdown, sched: Schedule, k: nat, next: nat)
    requires next == k + 1
    ensures Left(s, sched, next) <= Left(s, sched, k)
  {
    AtGood(s, sched, k);
    ShutdownStep(At(s, sched, k), sched(k));
  }

  lemma {:induction false} LeftFalls(s: Shutdown, sched: Schedule, n: nat, m: nat)
    requires n <= m
    ensures Left(s, sched, m) <= Left(s, sched, n)
    decreases m
  {
    hide Left;
    if n < m {
      LeftFalls(s, sched, n, m - 1);
      LeftStep(s, sched, m - 1, m);
    }
  }

  /** From `n` on nothing changes any more in what is left. */
  ghost predicate Settled(s: System, sched: Schedule, n: nat) {
    forall m: nat :: m >= n ==> Left(s, sched, m) == Left(s, sched, n)
  }

  lemma {:induction false} Settles(s: Shutdown, sched: Schedule, n: nat) returns (end: nat)
    ensures end >= n && Settled(s, sched, end)
    decreases Left(s, sched, n)
  {
    if m: nat :| m >= n && Left(s, sched, m) < Left(s, sched, n) {
      end := Settles(s, sched, m);
    } else {
      end := n;
      forall m: nat | m >= n
        ensures Left(s, sched, m) == Left(s, sched, n)
      {
        LeftFalls(s, sched, n, m);
      }
    }
  }

  predicate Own(s: System, u: nat) {
    u < |s.threads| && !s.threads[u].role.QueueWorker?
  }

  /** Once settled, the main thread and the loops do not move. */
  lemma NoOwnMove(s: Shutdown, sched: Schedule, end: nat, u: nat, k: nat)
    requires Settled(s, sched, end) && k >= end && Own(s, u)
    ensures !MovesAt(s, sched, u, k)
  {
    AtGood(s, sched, k);
    assert Left(s, sched, k) == Left(s, sched, end) && Left(s, sched, k + 1) == Left(s, sched, end);
    ShutdownStep(At(s, sched, k), sched(k));
  }

  /** Then each of them that has not ended is blocked from some moment on: if it could step again
      and again, it would. */
  lemma OwnBlocks(s: Shutdown, sched: Schedule, end: nat, u: nat) returns (stuck: nat)
    requires Fair(s, sched) && Settled(s, sched, end) && Own(s, u)
    ensures stuck >= end
    ensures forall k: nat :: k >= stuck ==> StuckAt(s, sched, u, k)
  {
    if m: nat :| m >= end && StuckFrom(s, sched, u, m) {
      return m;
    }
    forall m: nat | m >= end
      ensures CanLater(s, sched, u, m)
    {
      assert !StuckFrom(s, sched, u, m);
      var k: nat :| k >= m && !StuckAt(s, sched, u, k);
      AtGood(s, sched, k);
      LastCanStep(At(s, sched, k), u);
    }
    assert OftenCan(s, sched, u, end);
    var k: nat :| k >= end && MovesAt(s, sched, u, k);
    NoOwnMove(s, sched, end, u, k);
    stuck := end;
  }

  ghost predicate StuckFrom(s: System, sched: Schedule, u: nat, m: nat) {
    forall k: nat :: k >= m ==> StuckAt(s, sched, u, k)
  }

  ghost predicate StuckAt(s: System, sched: Schedule, u: nat, k: nat) {
    var now := At(s, sched, k);
    u < |now.threads| && (now.threads[u].over || Blocked(now.threads, u))
  }

  /** From `m` on every thread of the main thread and the loops is over or blocked, and none moves. */
  ghost predicate AllStuck(s: System, sched: Schedule, m: nat) {
    && (forall u: nat, k: nat :: Own(s, u) && k >= m ==> StuckAt(s, sched, u, k))
    && (forall u: nat, k: nat :: Own(s, u) && k >= m ==> !MovesAt(s, sched, u, k))
  }

  lemma {:induction false} AllBlock(s: Shutdown, sched: Schedule, end: nat, n: nat) returns (m: nat)
    requires Fair(s, sched) && Settled(s, sched, end) && n <= |s.threads|
    ensures m >= end
    ensures forall u: nat, k: nat :: u < n && Own(s, u) && k >= m ==> StuckAt(s, sched, u, k)
  {
    if n == 0 {
      m := end;
    } else {
      m := AllBlock(s, sched, end, n - 1);
      if Own(s, n - 1) {
        var stuck := OwnBlocks(s, sched, end, n - 1);
        m := if stuck > m then stuck else m;
      }
    }
  }

  lemma GetStuck(s: Shutdown, sched: Schedule) returns (m: nat)
    requires Fair(s, sched)
    ensures AllStuck(s, sched, m) && Settled(s, sched, m)
  {
    var end := Settles(s, sched, 0);
    m := AllBlock(s, sched, end, |s.threads|);
    forall u: nat, k: nat | Own(s, u) && k >= m
      ensures !MovesAt(s, sched, u, k)
    {
      NoOwnMove(s, sched, end, u, k);
    }
    forall k: nat | k >= m
      ensures Left(s, sched, k) == Left(s, sched, m)
    {
      assert Left(s, sched, k) == Left(s, sched, end);
    }
  }

  // ---------- Nobody else can block them forever ----------

  /** No rank a stuck thread waits for is above `top`. */
  ghost predicate Tops(s: System, sched: Schedule, m: nat, top: int) {
    forall u: nat :: Own(s, u) && u < |At(s, sched, m).threads| && !At(s, sched, m).threads[u].over ==>
      WaitRank(At(s, sched, m).threads, u) <= top
  }

  /** So the stuck threads hold only locks ranked below `top`. */
  lemma OwnHoldBelow(s: Shutdown, sched: Schedule, m: nat, top: int, k: nat, u: nat, l: Lock)
    requires AllStuck(s, sched, m) && |At(s, sched, m).threads| == |s.threads| && Tops(s, sched, m, top)
    requires k >= m && Own(s, u) && u < |At(s, sched, k).threads| && Holds(At(s, sched, k).threads, u, l)
    ensures Rank(l) < top
  {
    AtGood(s, sched, k);
    StaysPut(s, sched, u, m, k);
    var ts := At(s, sched, k).threads;
    HolderRanksBelow(ts, u, l);
    assert StuckAt(s, sched, u, k);
  }

  /** What the rest of the argument is about: from `m` on the main thread and the loops are stuck,
      and wait for nothing above `top`. */
  ghost predicate Context(s: Shutdown, sched: Schedule, m: nat, top: int) {
    Fair(s, sched) && AllStuck(s, sched, m) && |At(s, sched, m).threads| == |s.threads| && Tops(s, sched, m, top)
  }

  predicate IsWorker(s: System, w: nat) {
    w < |s.threads| && s.threads[w].role.QueueWorker?
  }

  /** Locks above the joins are held only by taking them. */
  lemma GuardHolder(ts: seq<Thread>, u: nat, l: Lock)
    requires u < |ts| && Rank(l) > 4
    ensures Holds(ts, u, l) <==> l in ts[u].stack
  {
  }

  lemma DroppedIsFree(before: seq<Thread>, after: seq<Thread>, w: nat, l: Lock)
    requires Exclusive(before) && |after| == |before| && w < |before| && Rank(l) > 4
    requires l in before[w].stack && l !in after[w].stack
    requires forall u: nat :: u < |before| && u != w ==> after[u] == before[u]
    ensures Free(after, l)
  {
    forall u: nat | u < |after|
      ensures !Holds(after, u, l)
    {
      GuardHolder(after, u, l);
    }
  }

  /** When a worker drops a lock, the lock is free. */
  lemma DropFrees(s: Shutdown, sched: Schedule, k: nat, w: nat, l: Lock)
    requires IsWorker(s, w) && Rank(l) > 4
    requires l in Thr(s, sched, k, w).stack && l !in Thr(s, sched, k + 1, w).stack
    ensures Free(At(s, sched, k + 1).threads, l)
  {
    AtGood(s, sched, k);
    var before := At(s, sched, k);
    OthersStay(before, sched(k));
    OnlyOneMoves(before, sched(k), w);
    DroppedIsFree(before.threads, Next(before, sched(k)).threads, w, l);
  }

  lemma OnlyOneMoves(s: System, l: Label, w: nat)
    requires Inv(s) && s.cleaning && w < |s.threads| && |Next(s, l).threads| == |s.threads|
    requires Next(s, l).threads[w] != s.threads[w]
    ensures forall u: nat :: u < |s.threads| && u != w ==> Next(s, l).threads[u] == s.threads[u]
  {
  }

  lemma FirstMove(s: System, sched: Schedule, w: nat, n: nat, k: nat) returns (first: nat)
    requires n <= k && MovesAt(s, sched, w, k)
    ensures n <= first <= k && MovesAt(s, sched, w, first)
    ensures forall j: nat :: n <= j < first ==> !MovesAt(s, sched, w, j)
    decreases k - n
  {
    hide Next, Enabled;
    if MovesAt(s, sched, w, n) {
      first := n;
    } else {
      first := FirstMove(s, sched, w, n + 1, k);
    }
  }

  /** A worker in mid-turn whose next lock ranks above `r`, or one that has only to end, moves. */
  lemma {:induction false} WorkerMoves(s: Shutdown, sched: Schedule, m: nat, top: int, w: nat, n: nat, r: int)
    returns (k: nat)
    requires Context(s, sched, m, top) && IsWorker(s, w) && n >= m && top <= r < 9 && !Thr(s, sched, n, w).over
    requires var th := Thr(s, sched, n, w); th.plan != [] && th.plan[0].Acquire? ==> Rank(th.plan[0].lock) > r
    ensures k >= n && MovesAt(s, sched, w, k) && Thr(s, sched, k, w) == Thr(s, sched, n, w)
    decreases 9 - r, |Thr(s, sched, n, w).plan|, 1
  {
    if j: nat :| j >= n && MovesAt(s, sched, w, j) {
      k := FirstMove(s, sched, w, n, j);
      StaysPut(s, sched, w, n, k);
      return;
    }
    k := n;
    forall i: nat | i >= n
      ensures CanLater(s, sched, w, i)
    {
      var j := WorkerUnblocked(s, sched, m, top, w, n, r, i);
      AtGood(s, sched, j);
      LastCanStep(At(s, sched, j), w);
    }
    assert OftenCan(s, sched, w, n);
    assert false;
  }

  /** As long as it does not move, it is unblocked again and again. */
  lemma {:induction false} WorkerUnblocked(
      s: Shutdown, sched: Schedule, m: nat, top: int, w: nat, n: nat, r: int, i: nat)
    returns (j: nat)
    requires Context(s, sched, m, top) && IsWorker(s, w) && i >= n >= m && top <= r < 9 && !Thr(s, sched, n, w).over
    requires var th := Thr(s, sched, n, w); th.plan != [] && th.plan[0].Acquire? ==> Rank(th.plan[0].lock) > r
    requires forall j: nat :: j >= n ==> !MovesAt(s, sched, w, j)
    ensures j >= i
    ensures var ts := At(s, sched, j).threads; w < |ts| && !ts[w].over && !Blocked(ts, w)
    decreases 9 - r, 0, 0
  {
    AtGood(s, sched, i);
    StaysPut(s, sched, w, n, i);
    if !Blocked(At(s, sched, i).threads, w) {
      return i;
    }
    var l := Thr(s, sched, n, w).plan[0].lock;
    WorkerLockHigh(s, sched, n, w);
    var h: nat :| h < |s.threads| && Holds(At(s, sched, i).threads, h, l);
    if Own(s, h) {
      OwnHoldBelow(s, sched, m, top, i, h, l);
      assert false;
    }
    GuardHolder(At(s, sched, i).threads, h, l);
    j := Released(s, sched, m, top, h, l, i);
    AtGood(s, sched, j);
    StaysPut(s, sched, w, n, j);
  }

  /** A queue worker takes no joins: every lock it takes or holds ranks above them. */
  lemma WorkerLockHigh(s: Shutdown, sched: Schedule, n: nat, w: nat)
    requires IsWorker(s, w)
    ensures var th := Thr(s, sched, n, w);
            && (th.plan != [] && th.plan[0].Acquire? ==> Rank(th.plan[0].lock) > 4)
            && (forall l :: l in th.stack ==> Rank(l) > 4)
            && (th.stack != [] ==> th.plan != [])
  {
    AtGood(s, sched, n);
    var th := Thr(s, sched, n, w);
    assert Disciplined(th);
    if th.plan != [] {
      StackStep(Floor(th.role), th.stack, th.plan);
    }
  }

  /** A worker that holds a lock ranked no lower than `top` drops it. */
  lemma {:induction false} Released(s: Shutdown, sched: Schedule, m: nat, top: int, w: nat, l: Lock, n: nat)
    returns (k: nat)
    requires Context(s, sched, m, top) && IsWorker(s, w) && n >= m && Rank(l) >= top && l in Thr(s, sched, n, w).stack
    ensures k > n && Free(At(s, sched, k).threads, l)
    decreases 9 - Rank(l), |Thr(s, sched, n, w).plan|, 3
  {
    hide Next, Enabled;
    var next := HolderAdvances(s, sched, m, top, w, l, n);
    if l in Thr(s, sched, next, w).stack {
      k := Released(s, sched, m, top, w, l, next);
    } else {
      k := next;
    }
  }

  lemma {:induction false} HolderAdvances(s: Shutdown, sched: Schedule, m: nat, top: int, w: nat, l: Lock, n: nat)
    returns (next: nat)
    requires Context(s, sched, m, top) && IsWorker(s, w) && n >= m && Rank(l) >= top && l in Thr(s, sched, n, w).stack
    ensures next > n && |Thr(s, sched, next, w).plan| < |Thr(s, sched, n, w).plan|
    ensures l in Thr(s, sched, next, w).stack || Free(At(s, sched, next).threads, l)
    decreases 9 - Rank(l), |Thr(s, sched, n, w).plan|, 2
  {
    hide Next, Enabled;
    HolderMoves(s, sched, n, w, l);
    var j := WorkerMoves(s, sched, m, top, w, n, Rank(l));
    MidTurnStep(s, sched, j, w);
    next := j + 1;
    if l !in Thr(s, sched, next, w).stack {
      WorkerLockHigh(s, sched, n, w);
      DropFrees(s, sched, j, w, l);
    }
  }

  lemma HolderMoves(s: Shutdown, sched: Schedule, n: nat, w: nat, l: Lock)
    requires IsWorker(s, w) && l in Thr(s, sched, n, w).stack
    ensures var th := Thr(s, sched, n, w);
            && !th.over && th.plan != []
            && (th.plan[0].Acquire? ==> Rank(th.plan[0].lock) > Rank(l))
  {
    AtGood(s, sched, n);
    var th := Thr(s, sched, n, w);
    assert Disciplined(th);
    StackStep(Floor(th.role), th.stack, th.plan);
  }

  /** A step in mid-turn takes the next action off the plan. */
  lemma MidTurnStep(s: Shutdown, sched: Schedule, j: nat, w: nat)
    requires IsWorker(s, w) && MovesAt(s, sched, w, j) && Thr(s, sched, j, w).plan != []
    ensures Thr(s, sched, j + 1, w).plan == Thr(s, sched, j, w).plan[1..] && !Thr(s, sched, j + 1, w).over
  {
    AtGood(s, sched, j);
    AtGood(s, sched, j + 1);
    assert Disciplined(Thr(s, sched, j, w));
  }

  // ---------- The workers that are joined ----------

  /** A worker of a queue that was told to stop starts no turn: between turns its step is its end. */
  lemma LastStep(s: Shutdown, sched: Schedule, j: nat, w: nat)
    requires IsWorker(s, w) && MovesAt(s, sched, w, j) && Thr(s, sched, j, w).plan == []
    requires s.threads[w].role.queue in At(s, sched, j).closed
    ensures Thr(s, sched, j + 1, w).over
  {
    AtGood(s, sched, j);
    AtGood(s, sched, j + 1);
  }

  lemma WorkerMovesOn(s: Shutdown, sched: Schedule, m: nat, top: int, w: nat, n: nat) returns (k: nat)
    requires Context(s, sched, m, top) && IsWorker(s, w) && n >= m && top <= 4 && !Thr(s, sched, n, w).over
    ensures k >= n && MovesAt(s, sched, w, k) && Thr(s, sched, k, w) == Thr(s, sched, n, w)
  {
    WorkerLockHigh(s, sched, n, w);
    k := WorkerMoves(s, sched, m, top, w, n, 4);
  }

  lemma MoveAdvances(s: Shutdown, sched: Schedule, w: nat, n: nat, j: nat)
    requires IsWorker(s, w) && n <= j && MovesAt(s, sched, w, j) && Thr(s, sched, j, w) == Thr(s, sched, n, w)
    requires s.threads[w].role.queue in At(s, sched, n).closed
    ensures s.threads[w].role.queue in At(s, sched, j + 1).closed
    ensures Thr(s, sched, j + 1, w).over || |Thr(s, sched, j + 1, w).plan| < |Thr(s, sched, n, w).plan|
  {
    StaysClosed(s, sched, s.threads[w].role.queue, n, j);
    StaysClosed(s, sched, s.threads[w].role.queue, n, j + 1);
    ClosedWorkerStep(s, sched, j, w);
  }

  lemma ClosedWorkerStep(s: Shutdown, sched: Schedule, j: nat, w: nat)
    requires IsWorker(s, w) && MovesAt(s, sched, w, j) && s.threads[w].role.queue in At(s, sched, j).closed
    ensures Thr(s, sched, j + 1, w).over || |Thr(s, sched, j + 1, w).plan| < |Thr(s, sched, j, w).plan|
  {
    if Thr(s, sched, j, w).plan == [] {
      LastStep(s, sched, j, w);
    } else {
      MidTurnStep(s, sched, j, w);
    }
  }

  lemma WorkerAdvances(s: Shutdown, sched: Schedule, m: nat, top: int, w: nat, n: nat) returns (next: nat)
    requires Context(s, sched, m, top) && IsWorker(s, w) && n >= m && top <= 4 && !Thr(s, sched, n, w).over
    requires s.threads[w].role.queue in At(s, sched, n).closed
    ensures next > n && s.threads[w].role.queue in At(s, sched, next).closed
    ensures Thr(s, sched, next, w).over || |Thr(s, sched, next, w).plan| < |Thr(s, sched, n, w).plan|
  {
    hide Next, Enabled;
    var j := WorkerMovesOn(s, sched, m, top, w, n);
    MoveAdvances(s, sched, w, n, j);
    next := j + 1;
  }

  /** A worker of a queue that was told to stop ends. */
  lemma {:induction false} WorkerEnds(s: Shutdown, sched: Schedule, m: nat, top: int, w: nat, n: nat) returns (k: nat)
    requires Context(s, sched, m, top) && IsWorker(s, w) && n >= m && top <= 4
    requires s.threads[w].role.queue in At(s, sched, n).closed
    ensures k >= n && Thr(s, sched, k, w).over
    decreases |Thr(s, sched, n, w).plan|
  {
    hide Next, Enabled;
    k := n;
    if !Thr(s, sched, n, w).over {
      k := WorkerAdvances(s, sched, m, top, w, n);
      if !Thr(s, sched, k, w).over {
        k := WorkerEnds(s, sched, m, top, w, k);
      }
    }
  }

  lemma {:induction false} OverStays(s: Shutdown, sched: Schedule, w: nat, n: nat, m: nat)
    requires w < |s.threads| && n <= m && Thr(s, sched, n, w).over
    ensures Thr(s, sched, m, w).over
    decreases m
  {
    hide Thr;
    if n < m {
      OverStays(s, sched, w, n, m - 1);
      OverNoMove(s, sched, m - 1, w);
      StaysOnce(s, sched, w, m - 1, m);
    }
  }

  lemma OverNoMove(s: Shutdown, sched: Schedule, k: nat, w: nat)
    requires w < |s.threads| && Thr(s, sched, k, w).over
    ensures !MovesAt(s, sched, w, k)
  {
    AtGood(s, sched, k);
    assert Disciplined(Thr(s, sched, k, w));
  }

  /** The workers of queue `q` among the first `count` threads have ended. */
  ghost predicate Ended(s: Shutdown, sched: Schedule, q: nat, count: nat, k: nat)
    requires count <= |s.threads|
  {
    forall w: nat :: w < count && s.threads[w].role == QueueWorker(q) ==> Thr(s, sched, k, w).over
  }

  lemma EndedStays(s: Shutdown, sched: Schedule, q: nat, count: nat, n: nat, k: nat)
    requires count <= |s.threads| && n <= k && Ended(s, sched, q, count, n)
    ensures Ended(s, sched, q, count, k)
  {
    forall w: nat | w < count && s.threads[w].role == QueueWorker(q)
      ensures Thr(s, sched, k, w).over
    {
      OverStays(s, sched, w, n, k);
    }
  }

  lemma OneMoreEnds(s: Shutdown, sched: Schedule, m: nat, top: int, q: nat, n: nat, count: nat) returns (k: nat)
    requires Context(s, sched, m, top) && n >= m && top <= 4 && q in At(s, sched, n).closed && count < |s.threads|
    requires Ended(s, sched, q, count, n)
    ensures k >= n && Ended(s, sched, q, count + 1, k)
  {
    k := n;
    if s.threads[count].role == QueueWorker(q) {
      k := WorkerEnds(s, sched, m, top, count, n);
      EndedStays(s, sched, q, count, n, k);
    }
  }

  /** All workers of a queue that was told to stop end. */
  lemma {:induction false} QueueEnds(s: Shutdown, sched: Schedule, m: nat, top: int, q: nat, n: nat, count: nat)
    returns (k: nat)
    requires Context(s, sched, m, top) && n >= m && top <= 4 && q in At(s, sched, n).closed && count <= |s.threads|
    ensures k >= n && Ended(s, sched, q, count, k)
    decreases count
  {
    k := n;
    if count > 0 {
      k := QueueEnds(s, sched, m, top, q, n, count - 1);
      StaysClosed(s, sched, q, n, k);
      k := OneMoreEnds(s, sched, m, top, q, k, count - 1);
    }
  }

  // ---------- The theorem ----------

  /** The main thread or a loop that has not ended. */
  predicate Unended(ts: seq<Thread>, u: nat) {
    u < |ts| && !ts[u].role.QueueWorker? && !ts[u].over
  }

  /** One of these whose rank waited for is the highest. */
  lemma {:induction false} Highest(ts: seq<Thread>, n: nat) returns (t: nat)
    requires exists u: nat :: u < n && Unended(ts, u)
    ensures t < n && Unended(ts, t)
    ensures forall u: nat :: u < n && Unended(ts, u) ==> WaitRank(ts, u) <= WaitRank(ts, t)
    decreases n
  {
    if exists u: nat :: u < n - 1 && Unended(ts, u) {
      t := Highest(ts, n - 1);
      if Unended(ts, n - 1) && WaitRank(ts, n - 1) > WaitRank(ts, t) {
        t := n - 1;
      }
    } else {
      t := n - 1;
    }
  }

  /** The lock the highest waits for becomes free. */
  lemma FreedForHighest(s: Shutdown, sched: Schedule, m: nat, t: nat) returns (k: nat)
    requires Own(s, t) && |At(s, sched, m).threads| == |s.threads|
    requires Blocked(At(s, sched, m).threads, t)
    requires Context(s, sched, m, WaitRank(At(s, sched, m).threads, t))
    ensures k >= m && Free(At(s, sched, k).threads, At(s, sched, m).threads[t].plan[0].lock)
  {
    var ts := At(s, sched, m).threads;
    var l, top := ts[t].plan[0].lock, WaitRank(ts, t);
    var h: nat :| h < |ts| && Holds(ts, h, l);
    AtGood(s, sched, m);
    if Own(s, h) {
      OwnHoldBelow(s, sched, m, top, m, h, l);
      assert false;
    }
    if l in ts[h].stack {
      assert ts[h] == Thr(s, sched, m, h);
      k := Released(s, sched, m, top, h, l, m);
    } else {
      k := JoinFreed(s, sched, m, top, t, l);
    }
  }

  /** A join on a queue's workers returns. */
  lemma JoinFreed(s: Shutdown, sched: Schedule, m: nat, top: int, t: nat, l: Lock) returns (k: nat)
    requires Context(s, sched, m, top) && Own(s, t) && l.kind.QueueJoin? && top == Rank(l)
    requires var th := At(s, sched, m).threads[t]; th.plan != [] && th.plan[0] == Acquire(l)
    ensures k >= m && Free(At(s, sched, k).threads, l)
  {
    AtGood(s, sched, m);
    ReadyStep(At(s, sched, m).closed, At(s, sched, m).threads[t].plan);
    k := QueueEnds(s, sched, m, top, l.instance, m, |s.threads|);
    AtGood(s, sched, k);
    forall u: nat | u < |At(s, sched, k).threads|
      ensures !Holds(At(s, sched, k).threads, u, l)
    {
      if Own(s, u) {
        if Holds(At(s, sched, k).threads, u, l) {
          OwnHoldBelow(s, sched, m, top, k, u, l);
        }
      } else {
        WorkerLockHigh(s, sched, k, u);
        assert s.threads[u].role == QueueWorker(l.instance) ==> Thr(s, sched, k, u).over by {
          assert Ended(s, sched, l.instance, |s.threads|, k);
        }
      }
    }
  }

  lemma StillBlocked(s: Shutdown, sched: Schedule, m: nat, t: nat, k: nat)
    requires AllStuck(s, sched, m) && Own(s, t) && k >= m && |At(s, sched, m).threads| == |s.threads|
    requires Blocked(At(s, sched, m).threads, t) && !At(s, sched, m).threads[t].over
    ensures !Free(At(s, sched, k).threads, At(s, sched, m).threads[t].plan[0].lock)
  {
    AtGood(s, sched, k);
    StaysPut(s, sched, t, m, k);
    assert StuckAt(s, sched, t, k);
  }

  /** Every fair run of the shutdown completes: from any state in which cleanup runs, whatever the
      queue workers do meanwhile, there is a moment at which the main thread and every worker loop
      have ended, so every join has returned. */
  lemma FairRunsComplete(s: Shutdown, sched: Schedule) returns (n: nat)
    requires Fair(s, sched)
    ensures forall u: nat :: Own(s, u) ==> u < |At(s, sched, n).threads| && At(s, sched, n).threads[u].over
  {
    hide Next, Enabled;
    n := GetStuck(s, sched);
    AtGood(s, sched, n);
    var ts := At(s, sched, n).threads;
    if u: nat :| u < |s.threads| && Own(s, u) && !ts[u].over {
      assert Unended(ts, u);
      var t := Highest(ts, |s.threads|);
      assert forall v: nat :: Own(s, v) && v < |ts| && !ts[v].over ==> Unended(ts, v);
      assert StuckAt(s, sched, t, n);
      var k := FreedForHighest(s, sched, n, t);
      StillBlocked(s, sched, n, t, k);
      assert false;
    }
  }
}
