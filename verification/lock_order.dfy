/** Threads that take locks in guard scopes, and why ranked locks exclude deadlock. */
module LockOrder {
  import opened Base

  /** The locks of one bridge process. A join is a lock as well: the thread that is waited for
      holds it from its start to its end. */
  datatype Kind =
    | ThreadJoin | StatsLock | MpdLock | SerialLock | WorkerHandle | QueueJoin | ErrorState | QueueState
    | CacheLock | CavaLock | CavaSkip | CavaDeferred | SysinfoLock | SupportsLock | LastUpdate | LoggerLock

  datatype Lock = Lock(kind: Kind, instance: nat)

  /** Every thread waits only for locks ranked above all it holds. */
  function Rank(l: Lock): (r: nat)
    ensures r < 9
  {
    match l.kind
    case ThreadJoin => 0
    case StatsLock => 1
    case MpdLock => 1
    case SerialLock => 2
    case WorkerHandle => 3
    case QueueJoin => 4
    case ErrorState => 5
    case QueueState => 6
    case CacheLock => 7
    case LoggerLock => 8
    case _ => 7
  }

  /** A stretch of code seen through its guards: what happens while a lock is held is nested in
      the scope of its guard. */
  datatype Code =
    | Steps(steps: seq<Code>)
    | Holding(lock: Lock, body: Code)
    | ClearRunning(queue: nat)

  datatype Action = Acquire(lock: Lock) | Release(lock: Lock) | QueueStops(queue: nat)

  function Actions(c: Code): seq<Action>
    decreases c, 1
  {
    match c
    case Steps(cs) => AllActions(cs)
    case Holding(l, body) => [Acquire(l)] + Actions(body) + [Release(l)]
    case ClearRunning(q) => [QueueStops(q)]
  }

  function AllActions(cs: seq<Code>): seq<Action>
    decreases cs, 0
  {
    if cs == [] then [] else Actions(cs[0]) + AllActions(cs[1..])
  }

  /** Nested guards have increasing ranks, all above `bound`; queue workers are joined only where
      `joins` allows it. */
  predicate Ascending(bound: int, joins: bool, c: Code)
    decreases c
  {
    match c
    case Steps(cs) => forall d :: d in cs ==> Ascending(bound, joins, d)
    case Holding(l, body) => bound < Rank(l) && (l.kind.QueueJoin? ==> joins) && Ascending(Rank(l), joins, body)
    case ClearRunning(_) => true
  }

  ghost predicate JoinFree(plan: seq<Action>) {
    forall i :: 0 <= i < |plan| && plan[i].Acquire? ==> !plan[i].lock.kind.QueueJoin?
  }

  lemma {:induction false} CodeJoinFree(bound: int, c: Code)
    requires Ascending(bound, false, c)
    ensures JoinFree(Actions(c))
    decreases c, 1
  {
    match c
    case Steps(cs) => StepsJoinFree(bound, cs);
    case Holding(l, body) => CodeJoinFree(Rank(l), body);
    case ClearRunning(_) =>
  }

  lemma {:induction false} StepsJoinFree(bound: int, cs: seq<Code>)
    requires forall d :: d in cs ==> Ascending(bound, false, d)
    ensures JoinFree(AllActions(cs))
    decreases cs, 0
  {
    if cs != [] {
      CodeJoinFree(bound, cs[0]);
      StepsJoinFree(bound, cs[1..]);
    }
  }

  // ---------- One thread ----------

  function Top(floor: int, stack: seq<Lock>): int {
    if stack == [] then floor else Rank(stack[|stack| - 1])
  }

  /** A thread that holds `stack` can run `plan` to its end: guards are dropped in the reverse
      order of their taking and each lock taken ranks above the one taken before it. */
  ghost predicate Runs(floor: int, stack: seq<Lock>, plan: seq<Action>)
    decreases plan
  {
    if plan == [] then stack == []
    else
      match plan[0]
      case Acquire(l) => Top(floor, stack) < Rank(l) && Runs(floor, stack + [l], plan[1..])
      case Release(l) => stack != [] && stack[|stack| - 1] == l && Runs(floor, stack[..|stack| - 1], plan[1..])
      case _ => Runs(floor, stack, plan[1..])
  }

  lemma {:induction false} CodeRuns(joins: bool, floor: int, stack: seq<Lock>, c: Code, rest: seq<Action>)
    requires Ascending(Top(floor, stack), joins, c) && Runs(floor, stack, rest)
    ensures Runs(floor, stack, Actions(c) + rest)
    decreases c, 1
  {
    match c
    case Steps(cs) => StepsRun(joins, floor, stack, cs, rest);
    case Holding(l, body) =>
      var inner := [Release(l)] + rest;
      assert inner[1..] == rest && (stack + [l])[..|stack|] == stack;
      assert Runs(floor, stack + [l], inner);
      CodeRuns(joins, floor, stack + [l], body, inner);
      assert Actions(c) + rest == [Acquire(l)] + (Actions(body) + inner);
      assert ([Acquire(l)] + (Actions(body) + inner))[1..] == Actions(body) + inner;
    case ClearRunning(_) => assert (Actions(c) + rest)[1..] == rest;
  }

  lemma {:induction false} StepsRun(joins: bool, floor: int, stack: seq<Lock>, cs: seq<Code>, rest: seq<Action>)
    requires forall d :: d in cs ==> Ascending(Top(floor, stack), joins, d)
    requires Runs(floor, stack, rest)
    ensures Runs(floor, stack, AllActions(cs) + rest)
    decreases cs, 0
  {
    if cs == [] {
      assert [] + rest == rest;
    } else {
      StepsRun(joins, floor, stack, cs[1..], rest);
      CodeRuns(joins, floor, stack, cs[0], AllActions(cs[1..]) + rest);
      assert Actions(cs[0]) + (AllActions(cs[1..]) + rest) == AllActions(cs) + rest;
    }
  }

  ghost predicate StackAscends(floor: int, stack: seq<Lock>) {
    && (forall i :: 0 <= i < |stack| ==> floor < Rank(stack[i]))
    && (forall i, j :: 0 <= i < j < |stack| ==> Rank(stack[i]) < Rank(stack[j]))
  }

  lemma StackStep(floor: int, stack: seq<Lock>, plan: seq<Action>)
    requires StackAscends(floor, stack) && Runs(floor, stack, plan) && plan != []
    ensures plan[0].Acquire? ==>
              StackAscends(floor, stack + [plan[0].lock]) && Runs(floor, stack + [plan[0].lock], plan[1..])
    ensures plan[0].Acquire? ==> forall i :: 0 <= i < |stack| ==> Rank(stack[i]) < Rank(plan[0].lock)
    ensures plan[0].Acquire? ==> floor < Rank(plan[0].lock)
    ensures plan[0].Release? ==>
              && stack != [] && stack[|stack| - 1] == plan[0].lock
              && StackAscends(floor, stack[..|stack| - 1]) && Runs(floor, stack[..|stack| - 1], plan[1..])
  {
    if plan[0].Acquire? && stack != [] {
      assert forall i :: 0 <= i < |stack| - 1 ==> Rank(stack[i]) < Rank(stack[|stack| - 1]);
    }
  }

  // ---------- Many threads ----------

  datatype Worker = MpdChecker | CavaReader | CommandProcessor | SysinfoChecker

  datatype Role = MainThread | Loop(worker: Worker) | QueueWorker(queue: nat)

  datatype Thread = Thread(role: Role, stack: seq<Lock>, plan: seq<Action>, over: bool)

  /** The lock others wait for when they join thread `t`. */
  function Token(role: Role, t: nat): Option<Lock> {
    match role
    case MainThread => None
    case Loop(_) => Some(Lock(ThreadJoin, t))
    case QueueWorker(q) => Some(Lock(QueueJoin, q))
  }

  function Floor(role: Role): int {
    match role
    case MainThread => -1
    case Loop(_) => 0
    case QueueWorker(_) => 4
  }

  ghost predicate Holds(ts: seq<Thread>, t: nat, l: Lock)
    requires t < |ts|
  {
    l in ts[t].stack || (!ts[t].over && Token(ts[t].role, t) == Some(l))
  }

  ghost predicate Free(ts: seq<Thread>, l: Lock) {
    forall t: nat :: t < |ts| ==> !Holds(ts, t, l)
  }

  ghost predicate Disciplined(th: Thread) {
    && StackAscends(Floor(th.role), th.stack)
    && Runs(Floor(th.role), th.stack, th.plan)
    && (th.over ==> th.plan == [])
  }

  ghost predicate AllDisciplined(ts: seq<Thread>) {
    forall t: nat :: t < |ts| ==> Disciplined(ts[t])
  }

  /** The thread waits for a lock that another thread holds. */
  ghost predicate Blocked(ts: seq<Thread>, t: nat)
    requires t < |ts|
  {
    ts[t].plan != [] && ts[t].plan[0].Acquire? && !Free(ts, ts[t].plan[0].lock)
  }

  lemma HolderRanksBelow(ts: seq<Thread>, u: nat, l: Lock)
    requires AllDisciplined(ts) && u < |ts| && Holds(ts, u, l)
    ensures !ts[u].over
    ensures ts[u].plan != [] && ts[u].plan[0].Acquire? ==> Rank(l) < Rank(ts[u].plan[0].lock)
  {
    assert Disciplined(ts[u]);
    if ts[u].plan != [] {
      StackStep(Floor(ts[u].role), ts[u].stack, ts[u].plan);
    }
  }

  /** Thread `path[i]` waits for a lock that `path[i + 1]` holds. */
  ghost predicate Link(ts: seq<Thread>, path: seq<nat>, i: nat)
    requires i + 1 < |path|
  {
    && path[i] < |ts| && path[i + 1] < |ts|
    && Blocked(ts, path[i]) && Holds(ts, path[i + 1], ts[path[i]].plan[0].lock)
  }

  /** Who waits for whom, from the first thread of `path` to the last. */
  ghost predicate Chain(ts: seq<Thread>, path: seq<nat>) {
    && path != [] && path[|path| - 1] < |ts|
    && forall i: nat :: i < |path| - 1 ==> Link(ts, path, i)
  }

  /** The rank of the lock a thread is about to take. */
  function WaitRank(ts: seq<Thread>, t: nat): int {
    if t < |ts| && ts[t].plan != [] && ts[t].plan[0].Acquire? then Rank(ts[t].plan[0].lock) else -1
  }

  /** The rank waited for strictly rises along every chain of waits. */
  lemma LinkRises(ts: seq<Thread>, path: seq<nat>, i: nat)
    requires AllDisciplined(ts) && i + 1 < |path| && Link(ts, path, i)
    ensures !ts[path[i + 1]].over && 0 <= WaitRank(ts, path[i]) < 9
    ensures Blocked(ts, path[i + 1]) ==> WaitRank(ts, path[i]) < WaitRank(ts, path[i + 1])
  {
    HolderRanksBelow(ts, path[i + 1], ts[path[i]].plan[0].lock);
  }

  lemma {:induction false} ChainRises(ts: seq<Thread>, path: seq<nat>, i: nat)
    requires AllDisciplined(ts) && Chain(ts, path) && i + 1 < |path|
    ensures i <= WaitRank(ts, path[i]) < 9
    decreases i
  {
    assert Link(ts, path, i);
    LinkRises(ts, path, i);
    if i > 0 {
      ChainRises(ts, path, i - 1);
      NextRises(ts, path, i - 1);
    }
  }

  lemma NextRises(ts: seq<Thread>, path: seq<nat>, i: nat)
    requires AllDisciplined(ts) && i + 2 < |path| && Chain(ts, path)
    ensures WaitRank(ts, path[i]) < WaitRank(ts, path[i + 1])
  {
    assert Link(ts, path, i) && Link(ts, path, i + 1);
    LinkRises(ts, path, i);
  }

  /** So no chain of waits is longer than there are ranks, and none closes to a circle. */
  lemma ChainsEnd(ts: seq<Thread>, path: seq<nat>)
    requires AllDisciplined(ts) && Chain(ts, path)
    ensures |path| <= 10
  {
    if |path| > 1 {
      ChainRises(ts, path, |path| - 2);
    }
  }

  lemma ChainExtend(ts: seq<Thread>, t: nat, path: seq<nat>)
    requires t < |ts| && Chain(ts, path) && path[0] < |ts| && Blocked(ts, t) && Holds(ts, path[0], ts[t].plan[0].lock)
    ensures Chain(ts, [t] + path)
  {
    var longer := [t] + path;
    assert longer[|longer| - 1] == path[|path| - 1];
    forall i: nat | i < |longer| - 1
      ensures Link(ts, longer, i)
    {
      if i > 0 {
        assert Link(ts, path, i - 1);
        assert longer[i] == path[i - 1] && longer[i + 1] == path[i];
      }
    }
  }

  /** From any thread that has not ended, a chain of waits leads to one that is not blocked. */
  lemma {:induction false} SomeoneRuns(ts: seq<Thread>, t: nat) returns (path: seq<nat>)
    requires AllDisciplined(ts) && t < |ts| && !ts[t].over
    ensures Chain(ts, path) && path[0] == t
    ensures !ts[path[|path| - 1]].over && !Blocked(ts, path[|path| - 1])
    decreases if Blocked(ts, t) then 9 - Rank(ts[t].plan[0].lock) else 0
  {
    if !Blocked(ts, t) {
      return [t];
    }
    var l := ts[t].plan[0].lock;
    var holder: nat :| holder < |ts| && Holds(ts, holder, l);
    HolderRanksBelow(ts, holder, l);
    path := SomeoneRuns(ts, holder);
    ChainExtend(ts, t, path);
    path := [t] + path;
  }
}
