/** The threads of the hybrid bridge: the main loop, the workers that poll the stop flag, and the
    queue workers, interleaved action by action. No reachable state is a deadlock, and once
    cleanup joins, it completes. */
module HybridThreads {
  import opened Base
  import opened LockOrder
  import opened LockCode

  const MAIN: nat := 0

  /** `stop` is the flag the worker loops poll; `cleaning` says the main loop has been left;
      `closed` are the queues told to stop and `unplugged` those marked disconnected. */
  datatype System = System(threads: seq<Thread>, stop: bool, cleaning: bool, closed: set<nat>, unplugged: set<nat>)

  datatype Label =
    | Advance(t: nat)
    | Begin(t: nat, turn: Code)
    | Finish(t: nat)
    | Spawn(worker: Worker)
    | Signal
    | Unplug(queue: nat)
    | CleanUp(turn: Code)

  /** The turns of a loop body: every combination of outcomes of the routines it calls. */
  ghost predicate Turn(role: Role, c: Code) {
    match role
    case MainThread =>
      exists deferred, started, logs: nat, due, queue :: c == MainTurn(deferred, started, logs, due, queue)
    case Loop(MpdChecker) => exists o :: c == MpdCheckerTurn(o)
    case Loop(CavaReader) => exists logs: nat, o :: c == CavaReaderTurn(logs, o)
    case Loop(CommandProcessor) => exists o :: c == CommandTurn(o)
    case Loop(SysinfoChecker) => exists o :: c == SysinfoTurn(o)
    case QueueWorker(q) => exists waits: nat, write :: c == WorkerTurn(q, waits, write)
  }

  /** cleanup joins the handles the main loop holds. */
  ghost predicate CleanupTurn(c: Code) {
    exists mpd, connected, handles, cava: nat, queue, wasRunning ::
      c == Cleanup(mpd, connected, handles, cava, queue, wasRunning)
  }

  predicate Idle(s: System, t: nat) {
    t < |s.threads| && s.threads[t].plan == [] && !s.threads[t].over
  }

  /** Some worker thread has ended. */
  ghost predicate SomeoneDied(s: System) {
    exists t: nat :: t < |s.threads| && s.threads[t].role.Loop? && s.threads[t].over
  }

  ghost predicate Enabled(s: System, l: Label) {
    match l
    case Advance(t) => t < |s.threads| && s.threads[t].plan != [] && !Blocked(s.threads, t)
    case Begin(t, turn) =>
      && Idle(s, t) && Turn(s.threads[t].role, turn)
      && (match s.threads[t].role
          case MainThread => !s.stop && !s.cleaning
          case Loop(_) => !s.stop
          case QueueWorker(q) => q !in s.closed && q !in s.unplugged)
    case Finish(t) =>
      && Idle(s, t)
      && (match s.threads[t].role
          case MainThread => s.cleaning
          case Loop(w) => s.stop || w == CavaReader
          case QueueWorker(q) => q in s.closed || q in s.unplugged)
    case Spawn(_) => Idle(s, MAIN) && !s.cleaning
    case Signal => true
    case Unplug(_) => true
    case CleanUp(turn) => Idle(s, MAIN) && !s.cleaning && (s.stop || SomeoneDied(s)) && CleanupTurn(turn)
  }

  function Act(s: System, t: nat): System
    requires t < |s.threads| && s.threads[t].plan != []
  {
    var th := s.threads[t];
    match th.plan[0]
    case Acquire(l) => s.(threads := s.threads[t := th.(stack := th.stack + [l], plan := th.plan[1..])])
    case Release(_) =>
      var below := if th.stack == [] then [] else th.stack[..|th.stack| - 1];
      s.(threads := s.threads[t := th.(stack := below, plan := th.plan[1..])])
    case QueueStops(q) => s.(threads := s.threads[t := th.(plan := th.plan[1..])], closed := s.closed + {q})
  }

  /** Leaving the main loop raises the stop flag before cleanup begins. */
  ghost function Next(s: System, l: Label): System {
    if !Enabled(s, l) then s else
    match l
    case Advance(t) => Act(s, t)
    case Begin(t, turn) => s.(threads := s.threads[t := s.threads[t].(plan := Actions(turn))])
    case Finish(t) => s.(threads := s.threads[t := s.threads[t].(over := true)])
    case Spawn(w) => s.(threads := s.threads + [Thread(Loop(w), [], [], false)])
    case Signal => s.(stop := true)
    case Unplug(q) => s.(unplugged := s.unplugged + {q})
    case CleanUp(turn) =>
      s.(threads := s.threads[MAIN := s.threads[MAIN].(plan := Actions(turn))], stop := true, cleaning := true)
  }

  ghost function Run(s: System, ls: seq<Label>): System {
    if ls == [] then s else Next(Run(s, ls[..|ls| - 1]), ls[|ls| - 1])
  }

  /** The bridge once its threads have been started. */
  ghost predicate Initial(s: System) {
    && |s.threads| > 0 && s.threads[MAIN].role == MainThread
    && (forall t: nat :: t < |s.threads| ==> s.threads[t].stack == [] && s.threads[t].plan == [] && !s.threads[t].over)
    && (forall t: nat :: 0 < t < |s.threads| ==> !s.threads[t].role.MainThread?)
    && !s.stop && !s.cleaning && s.closed == s.unplugged == {}
  }

  // ---------- Invariant ----------

  /** A queue worker is joined only after its queue was told to stop. */
  ghost predicate JoinsReady(closed: set<nat>, plan: seq<Action>) {
    forall i :: 0 <= i < |plan| && plan[i].Acquire? && plan[i].lock.kind.QueueJoin? ==>
                  plan[i].lock.instance in closed || StopsBefore(plan, i, plan[i].lock.instance)
  }

  ghost predicate StopsBefore(plan: seq<Action>, i: int, q: nat)
    requires 0 <= i <= |plan|
  {
    exists j :: 0 <= j < i && plan[j] == QueueStops(q)
  }

  ghost predicate Inv(s: System) {
    && |s.threads| > 0 && s.threads[MAIN].role == MainThread
    && (forall t: nat :: 0 < t < |s.threads| ==> !s.threads[t].role.MainThread?)
    && AllDisciplined(s.threads)
    && (s.cleaning ==> s.stop)
    && (s.threads[MAIN].over ==> s.cleaning)
    && (forall t: nat :: t < |s.threads| ==> JoinsReady(s.closed, s.threads[t].plan))
  }

  lemma TurnAscends(role: Role, c: Code)
    requires Turn(role, c)
    ensures Ascending(Floor(role), false, c)
  {
    var b := Floor(role);
    match role
    case MainThread =>
      var deferred, started, logs: nat, due, queue :| c == MainTurn(deferred, started, logs, due, queue);
      MainAscends(b, false, deferred, started, logs, due, queue);
    case Loop(MpdChecker) =>
      var o :| c == MpdCheckerTurn(o);
      MpdCheckerAscends(b, false, o);
    case Loop(CavaReader) =>
      var logs: nat, o :| c == CavaReaderTurn(logs, o);
      CavaReaderAscends(b, false, logs, o);
    case Loop(CommandProcessor) =>
      var o :| c == CommandTurn(o);
      CommandAscends(b, false, o);
    case Loop(SysinfoChecker) =>
      var o :| c == SysinfoTurn(o);
      SysinfoAscends(b, false, o);
    case QueueWorker(q) =>
      var waits: nat, write :| c == WorkerTurn(q, waits, write);
      WorkerTurnAscends(b, false, q, waits, write);
  }

  lemma JoinFreeReady(closed: set<nat>, plan: seq<Action>)
    requires JoinFree(plan)
    ensures JoinsReady(closed, plan)
  {
  }

  lemma ReadyAfter(closed: set<nat>, pre: seq<Action>, plan: seq<Action>)
    requires JoinFree(pre) && JoinsReady(closed, plan)
    ensures JoinsReady(closed, pre + plan)
  {
    var all := pre + plan;
    forall i | 0 <= i < |all| && all[i].Acquire? && all[i].lock.kind.QueueJoin?
      ensures all[i].lock.instance in closed || StopsBefore(all, i, all[i].lock.instance)
    {
      var k := i - |pre|;
      assert plan[k] == all[i];
      if all[i].lock.instance !in closed {
        var j :| 0 <= j < k && plan[j] == QueueStops(all[i].lock.instance);
        assert all[j + |pre|] == plan[j];
      }
    }
  }

  /** One action taken from the front keeps what follows ready. */
  lemma ReadyStep(closed: set<nat>, plan: seq<Action>)
    requires plan != [] && JoinsReady(closed, plan)
    ensures JoinsReady(if plan[0].QueueStops? then closed + {plan[0].queue} else closed, plan[1..])
    ensures plan[0].Acquire? && plan[0].lock.kind.QueueJoin? ==> plan[0].lock.instance in closed
  {
    var rest := plan[1..];
    var closed' := if plan[0].QueueStops? then closed + {plan[0].queue} else closed;
    forall i | 0 <= i < |rest| && rest[i].Acquire? && rest[i].lock.kind.QueueJoin?
      ensures rest[i].lock.instance in closed' || StopsBefore(rest, i, rest[i].lock.instance)
    {
      var q := rest[i].lock.instance;
      assert plan[i + 1] == rest[i];
      if q !in closed {
        var j :| 0 <= j < i + 1 && plan[j] == QueueStops(q);
        assert j > 0 ==> rest[j - 1] == plan[j];
      }
    }
  }

  lemma ReadyWeaken(closed: set<nat>, more: set<nat>, plan: seq<Action>)
    requires JoinsReady(closed, plan) && closed <= more
    ensures JoinsReady(more, plan)
  {
  }

  lemma ReadyBefore(closed: set<nat>, plan: seq<Action>, post: seq<Action>)
    requires JoinsReady(closed, plan) && JoinFree(post)
    ensures JoinsReady(closed, plan + post)
  {
    var all := plan + post;
    forall i | 0 <= i < |all| && all[i].Acquire? && all[i].lock.kind.QueueJoin?
      ensures all[i].lock.instance in closed || StopsBefore(all, i, all[i].lock.instance)
    {
      assert plan[i] == all[i];
      if all[i].lock.instance !in closed {
        var j :| 0 <= j < i && plan[j] == QueueStops(all[i].lock.instance);
        assert all[j] == plan[j];
      }
    }
  }

  lemma BrieflyActions(l: Lock)
    ensures Actions(Briefly(l)) == [Acquire(l), Release(l)]
  {
    assert Actions(Steps([])) == [];
  }

  lemma {:induction false} AppendActions(cs: seq<Code>, c: Code)
    ensures AllActions(cs + [c]) == AllActions(cs) + Actions(c)
  {
    if cs == [] {
      assert cs + [c] == [c];
      assert AllActions([]) == [];
      assert AllActions([c]) == Actions(c) + AllActions([c][1..]);
    } else {
      assert (cs + [c])[1..] == cs[1..] + [c];
      AppendActions(cs[1..], c);
      assert Actions(cs[0]) + (AllActions(cs[1..]) + Actions(c)) == AllActions(cs) + Actions(c);
    }
  }

  /** stop() tells the queue to stop before it joins the worker. */
  lemma StopJoinsReady(closed: set<nat>, q: nat)
    ensures JoinsReady(closed, Actions(StopCode(q, true)))
  {
    var clear, handle := Holding(Lock(QueueState, q), ClearRunning(q)), Briefly(Lock(WorkerHandle, q));
    var join := Briefly(Lock(QueueJoin, q));
    var cs := [clear, handle, join, LogLine()];
    BrieflyActions(Lock(WorkerHandle, q));
    BrieflyActions(Lock(QueueJoin, q));
    BrieflyActions(Lock(LoggerLock, 0));
    assert Actions(clear) == [Acquire(Lock(QueueState, q)), QueueStops(q), Release(Lock(QueueState, q))];
    AppendActions([clear, handle, join], LogLine());
    AppendActions([clear, handle], join);
    AppendActions([clear], handle);
    AppendActions([], clear);
    assert [clear, handle, join] + [LogLine()] == cs && [clear, handle] + [join] == [clear, handle, join];
    assert [clear] + [handle] == [clear, handle] && [] + [clear] == [clear];
    var before := AllActions([clear, handle]);
    assert before == Actions(clear) + Actions(handle);
    assert before[1] == QueueStops(q);
    var upTo := before + Actions(join);
    forall i | 0 <= i < |upTo| && upTo[i].Acquire? && upTo[i].lock.kind.QueueJoin?
      ensures StopsBefore(upTo, i, upTo[i].lock.instance)
    {
      assert i == |before| && upTo[1] == QueueStops(q);
    }
    ReadyBefore(closed, upTo, Actions(LogLine()));
    assert Actions(StopCode(q, true)) == AllActions(cs);
  }

  lemma CloseJoinsReady(closed: set<nat>, comm: nat, queue: Option<Handle>, wasRunning: bool)
    ensures JoinsReady(closed, Actions(CloseCode(comm, queue, wasRunning)))
  {
    if queue.Some? && wasRunning {
      var take, release := [Acquire(Lock(SerialLock, comm))], [Release(Lock(SerialLock, comm))];
      var stop, drop := StopCode(queue.value.id, true), DropHandle(queue.value);
      StopJoinsReady(closed, queue.value.id);
      DropAscends(-1, false, queue.value);
      CodeJoinFree(-1, drop);
      ReadyBefore(closed, Actions(stop), Actions(drop));
      ReadyAfter(closed, take, Actions(stop) + Actions(drop));
      ReadyBefore(closed, take + (Actions(stop) + Actions(drop)), release);
      TwoSteps(stop, drop);
    } else {
      CloseAscends(-1, false, comm, queue, queue.Some? && wasRunning);
      CodeJoinFree(-1, CloseCode(comm, queue, queue.Some? && wasRunning));
      JoinFreeReady(closed, Actions(CloseCode(comm, queue, queue.Some? && wasRunning)));
    }
  }

  lemma TwoSteps(first: Code, second: Code)
    ensures Actions(Steps([first, second])) == Actions(first) + Actions(second)
  {
    assert [first] + [second] == [first, second] && [] + [first] == [first];
    AppendActions([first], second);
    AppendActions([], first);
  }

  lemma CleanupJoinsReady(
      closed: set<nat>, mpd: bool, connected: bool, handles: seq<nat>, cava: nat,
      queue: Option<Handle>, wasRunning: bool)
    ensures JoinsReady(closed, Actions(Cleanup(mpd, connected, handles, cava, queue, wasRunning)))
  {
    var c := Cleanup(mpd, connected, handles, cava, queue, wasRunning);
    var close := CloseCode(0, queue, wasRunning);
    var before := c.steps[..|c.steps| - 1];
    assert c.steps == before + [close];
    AppendActions(before, close);
    CleanupStartAscends(mpd, connected, handles, cava, queue, wasRunning);
    StepsJoinFree(-1, before);
    CloseJoinsReady(closed, 0, queue, wasRunning);
    ReadyAfter(closed, AllActions(before), Actions(close));
  }

  /** Before the last close, cleanup joins no queue worker. */
  lemma CleanupStartAscends(
      mpd: bool, connected: bool, handles: seq<nat>, cava: nat, queue: Option<Handle>, wasRunning: bool)
    ensures var c := Cleanup(mpd, connected, handles, cava, queue, wasRunning);
            forall d :: d in c.steps[..|c.steps| - 1] ==> Ascending(-1, false, d)
  {
    LogAscends(-1, false);
    LogsAscend(7, false, cava);
    MpdDisconnectAscends(-1, false, connected);
    MpdDisconnectAscends(-1, false, false);
    JoinsAscend(-1, false, handles);
    CloseAscends(-1, false, 1, None, false);
  }

  // ---------- Every step keeps the invariant ----------

  lemma InitialInv(s: System)
    requires Initial(s)
    ensures Inv(s)
  {
  }

  lemma TurnKeeps(s: System, t: nat, plan: seq<Action>)
    requires Inv(s) && Idle(s, t) && Runs(Floor(s.threads[t].role), [], plan) && JoinsReady(s.closed, plan)
    ensures Inv(s.(threads := s.threads[t := s.threads[t].(plan := plan)]))
  {
    assert Disciplined(s.threads[t]);
    assert s.threads[t].stack == [];
  }

  lemma TurnRuns(role: Role, joins: bool, c: Code)
    requires Ascending(Floor(role), joins, c)
    ensures Runs(Floor(role), [], Actions(c))
  {
    CodeRuns(joins, Floor(role), [], c, []);
    assert Actions(c) + [] == Actions(c);
  }

  lemma AdvanceDisciplined(s: System, t: nat)
    requires t < |s.threads| && s.threads[t].plan != [] && Disciplined(s.threads[t])
    ensures Disciplined(Act(s, t).threads[t])
  {
    var th := s.threads[t];
    StackStep(Floor(th.role), th.stack, th.plan);
  }

  lemma AdvanceKeeps(s: System, t: nat)
    requires Inv(s) && t < |s.threads| && s.threads[t].plan != []
    ensures Inv(Act(s, t))
  {
    var th := s.threads[t];
    var s' := Act(s, t);
    assert Disciplined(th);
    AdvanceDisciplined(s, t);
    ReadyStep(s.closed, th.plan);
    forall u: nat | u < |s'.threads|
      ensures JoinsReady(s'.closed, s'.threads[u].plan)
    {
      if u != t {
        ReadyWeaken(s.closed, s'.closed, s.threads[u].plan);
      }
    }
  }

  lemma NextKeeps(s: System, l: Label)
    requires Inv(s)
    ensures Inv(Next(s, l))
  {
    if Enabled(s, l) {
      match l
      case Advance(t) => AdvanceKeeps(s, t);
      case Begin(t, turn) =>
        TurnAscends(s.threads[t].role, turn);
        TurnRuns(s.threads[t].role, false, turn);
        CodeJoinFree(Floor(s.threads[t].role), turn);
        JoinFreeReady(s.closed, Actions(turn));
        TurnKeeps(s, t, Actions(turn));
      case CleanUp(turn) =>
        var mpd, connected, handles, cava: nat, queue, wasRunning :|
          turn == Cleanup(mpd, connected, handles, cava, queue, wasRunning);
        CleanupAscends(-1, mpd, connected, handles, cava, queue, wasRunning);
        TurnRuns(MainThread, true, turn);
        CleanupJoinsReady(s.closed, mpd, connected, handles, cava, queue, wasRunning);
        TurnKeeps(s, MAIN, Actions(turn));
      case Finish(t) => assert Disciplined(s.threads[t]);
      case _ =>
    }
  }

  lemma {:induction false} Reachable(s: System, ls: seq<Label>)
    requires Initial(s)
    ensures Inv(Run(s, ls))
  {
    if ls == [] {
      InitialInv(s);
    } else {
      Reachable(s, ls[..|ls| - 1]);
      NextKeeps(Run(s, ls[..|ls| - 1]), ls[|ls| - 1]);
    }
  }

  // ---------- No deadlock ----------

  /** Thread `u` has not ended and can take its next step. */
  ghost predicate CanStep(s: System, u: nat) {
    && u < |s.threads| && !s.threads[u].over
    && (Enabled(s, Advance(u)) || Enabled(s, Finish(u)) || (exists turn :: Enabled(s, Begin(u, turn)))
        || (u == MAIN && exists turn :: Enabled(s, CleanUp(turn))))
  }

  lemma IdleCanStep(s: System, u: nat)
    requires Inv(s) && Idle(s, u)
    ensures CanStep(s, u)
  {
    match s.threads[u].role
    case MainThread =>
      if !s.cleaning {
        if s.stop {
          var turn := Cleanup(false, false, [], 0, None, false);
          assert CleanupTurn(turn);
          assert Enabled(s, CleanUp(turn));
        } else {
          var turn := MainTurn(false, false, 0, false, None);
          assert Turn(MainThread, turn);
          assert Enabled(s, Begin(u, turn));
        }
      }
    case Loop(w) =>
      if !s.stop {
        LoopHasTurn(w);
        var turn :| Turn(Loop(w), turn);
        assert Enabled(s, Begin(u, turn));
      }
    case QueueWorker(q) =>
      if q !in s.closed && q !in s.unplugged {
        var turn := WorkerTurn(q, 0, None);
        assert Turn(QueueWorker(q), turn);
        assert Enabled(s, Begin(u, turn));
      }
  }

  lemma LoopHasTurn(w: Worker)
    ensures exists turn :: Turn(Loop(w), turn)
  {
    match w
    case MpdChecker => assert Turn(Loop(w), MpdCheckerTurn(Waits));
    case CavaReader => assert Turn(Loop(w), CavaReaderTurn(0, ReadOutcome.Idle));
    case CommandProcessor => assert Turn(Loop(w), CommandTurn(NoCommand));
    case SysinfoChecker => assert Turn(Loop(w), SysinfoTurn(NoCollector));
  }

  /** In every reachable state, from each thread that has not ended a chain of waits leads to one
      that can step, whatever the threads beside the chain do; and no chain of waits, whichever
      holders it follows, is longer than ten threads. */
  lemma DeadlockFree(s: System, ls: seq<Label>, t: nat) returns (path: seq<nat>)
    requires Initial(s)
    requires t < |Run(s, ls).threads| && !Run(s, ls).threads[t].over
    ensures var now := Run(s, ls);
            && Chain(now.threads, path) && path[0] == t && CanStep(now, path[|path| - 1])
            && forall other :: Chain(now.threads, other) ==> |other| <= 10
  {
    Reachable(s, ls);
    var now := Run(s, ls);
    path := SomeoneRuns(now.threads, t);
    LastCanStep(now, path[|path| - 1]);
    forall other | Chain(now.threads, other)
      ensures |other| <= 10
    {
      ChainsEnd(now.threads, other);
    }
  }

  lemma LastCanStep(s: System, u: nat)
    requires Inv(s) && u < |s.threads| && !s.threads[u].over && !Blocked(s.threads, u)
    ensures CanStep(s, u)
  {
    if s.threads[u].plan == [] {
      IdleCanStep(s, u);
    } else {
      assert Enabled(s, Advance(u));
    }
  }

  // ---------- Shutdown completes ----------

  /** What a thread has still to do before it ends, counted for the queue workers or for the
      main thread and the loops. */
  function Load(th: Thread, queues: bool): nat {
    if th.over || th.role.QueueWorker? != queues then 0 else |th.plan| + 1
  }

  function Pending(ts: seq<Thread>, queues: bool): nat {
    if ts == [] then 0 else Load(ts[0], queues) + Pending(ts[1..], queues)
  }

  lemma {:induction false} PendingUpdate(ts: seq<Thread>, i: nat, th: Thread, queues: bool)
    requires i < |ts|
    ensures Pending(ts[i := th], queues) == Pending(ts, queues) - Load(ts[i], queues) + Load(th, queues)
  {
    if i > 0 {
      assert ts[i := th][1..] == ts[1..][i - 1 := th];
      PendingUpdate(ts[1..], i - 1, th, queues);
    }
  }

  lemma {:induction false} SomePending(ts: seq<Thread>, queues: bool) returns (t: nat)
    requires Pending(ts, queues) > 0
    ensures t < |ts| && Load(ts[t], queues) > 0
  {
    if Load(ts[0], queues) > 0 {
      t := 0;
    } else {
      t := SomePending(ts[1..], queues);
      t := t + 1;
    }
  }

  lemma {:induction false} NonePending(ts: seq<Thread>, queues: bool, t: nat)
    requires Pending(ts, queues) == 0 && t < |ts|
    ensures Load(ts[t], queues) == 0
  {
    if t > 0 {
      NonePending(ts[1..], queues, t - 1);
    }
  }

  /** The label is a step of the main thread or of a worker loop. */
  predicate OwnStep(s: System, l: Label) {
    match l
    case Advance(t) => t < |s.threads| && !s.threads[t].role.QueueWorker?
    case Begin(t, _) => t < |s.threads| && !s.threads[t].role.QueueWorker?
    case Finish(t) => t < |s.threads| && !s.threads[t].role.QueueWorker?
    case _ => false
  }

  /** While cleanup runs the flag stays raised, every step of the main thread or of a worker loop
      brings the end nearer, and no other step moves it away. */
  lemma ShutdownStep(s: System, l: Label)
    requires Inv(s) && s.cleaning
    ensures var s' := Next(s, l);
            && s'.cleaning && s'.stop
            && Pending(s'.threads, false) + (if Enabled(s, l) && OwnStep(s, l) then 1 else 0)
               <= Pending(s.threads, false)
  {
    if Enabled(s, l) {
      match l
      case Advance(t) =>
        assert Disciplined(s.threads[t]);
        PendingUpdate(s.threads, t, Act(s, t).threads[t], false);
      case Begin(t, turn) => PendingUpdate(s.threads, t, s.threads[t].(plan := Actions(turn)), false);
      case Finish(t) => PendingUpdate(s.threads, t, s.threads[t].(over := true), false);
      case _ =>
    }
  }

  /** How many steps the main thread and the worker loops take along `ls`. */
  ghost function OwnSteps(s: System, ls: seq<Label>): nat {
    if ls == [] then 0
    else
      var before, l := Run(s, ls[..|ls| - 1]), ls[|ls| - 1];
      OwnSteps(s, ls[..|ls| - 1]) + if Enabled(before, l) && OwnStep(before, l) then 1 else 0
  }

  /** Shutdown is bounded: from the moment cleanup runs, in every interleaving, the flag stays
      raised and the main thread and the worker loops together take no more steps than what they
      then have pending. */
  lemma {:induction false} ShutdownBounded(s: System, ls: seq<Label>)
    requires Inv(s) && s.cleaning
    ensures var t := Run(s, ls);
            && Inv(t) && t.cleaning && t.stop
            && OwnSteps(s, ls) + Pending(t.threads, false) <= Pending(s.threads, false)
  {
    if ls != [] {
      var init, l := ls[..|ls| - 1], ls[|ls| - 1];
      ShutdownBounded(s, init);
      NextKeeps(Run(s, init), l);
      ShutdownStep(Run(s, init), l);
    }
  }

  lemma OwnLabel(s: System, u: nat) returns (l: Label)
    requires Inv(s) && s.cleaning && u < |s.threads| && !s.threads[u].over && !Blocked(s.threads, u)
    requires s.threads[u].plan == [] && s.threads[u].role.QueueWorker? ==> s.threads[u].role.queue in s.closed
    ensures Enabled(s, l) && (l == Advance(u) || l == Finish(u))
  {
    l := if s.threads[u].plan == [] then Finish(u) else Advance(u);
  }

  /** Nothing waits for a queue worker that may still loop: one that others wait for either holds
      a lock in mid-turn or has been told to stop. */
  lemma AwaitedWorkerEnds(s: System, u: nat, v: nat, l: Lock)
    requires Inv(s) && u < |s.threads| && v < |s.threads| && Blocked(s.threads, v)
    requires s.threads[v].plan[0].lock == l && Holds(s.threads, u, l)
    requires s.threads[u].role.QueueWorker? && s.threads[u].plan == []
    ensures s.threads[u].role.queue in s.closed
  {
    assert Disciplined(s.threads[u]);
    assert s.threads[u].stack == [];
    ReadyStep(s.closed, s.threads[v].plan);
  }

  /** Progress: while a thread that cleanup waits for, or cleanup itself, has not ended, some step
      is possible that brings the end nearer, or finishes part of a queue worker's turn first. */
  lemma ShutdownProgress(s: System) returns (l: Label)
    requires Inv(s) && s.cleaning && Pending(s.threads, false) > 0
    ensures Enabled(s, l)
    ensures var s' := Next(s, l);
            || Pending(s'.threads, false) < Pending(s.threads, false)
            || (Pending(s'.threads, false) == Pending(s.threads, false)
                && Pending(s'.threads, true) < Pending(s.threads, true))
  {
    var t := SomePending(s.threads, false);
    var path := SomeoneRuns(s.threads, t);
    var u := path[|path| - 1];
    if s.threads[u].role.QueueWorker? && s.threads[u].plan == [] {
      var v := path[|path| - 2];
      assert Link(s.threads, path, |path| - 2);
      AwaitedWorkerEnds(s, u, v, s.threads[v].plan[0].lock);
    }
    l := OwnLabel(s, u);
    StepLightens(s, u, l);
  }

  lemma StepLightens(s: System, u: nat, l: Label)
    requires u < |s.threads| && Enabled(s, l) && (l == Advance(u) || l == Finish(u))
    requires Inv(s)
    ensures var s', queues := Next(s, l), s.threads[u].role.QueueWorker?;
            && Pending(s'.threads, queues) < Pending(s.threads, queues)
            && Pending(s'.threads, !queues) == Pending(s.threads, !queues)
  {
    var th := if l == Advance(u) then Act(s, u).threads[u] else s.threads[u].(over := true);
    assert Disciplined(s.threads[u]);
    LoadFalls(s.threads[u], th);
    PendingUpdate(s.threads, u, th, true);
    PendingUpdate(s.threads, u, th, false);
    assert Next(s, l).threads == s.threads[u := th];
  }

  lemma LoadFalls(before: Thread, after: Thread)
    requires !before.over && after.role == before.role
    requires after.over || (before.plan != [] && after.plan == before.plan[1..])
    ensures var queues := before.role.QueueWorker?;
            Load(after, queues) < Load(before, queues) && Load(after, !queues) == Load(before, !queues) == 0
  {
  }

  lemma {:induction false} RunCons(s: System, l: Label, ls: seq<Label>)
    ensures Run(s, [l] + ls) == Run(Next(s, l), ls)
  {
    var all := [l] + ls;
    if ls == [] {
      assert all[..0] == [] && all[0] == l;
      assert Run(s, all[..0]) == s;
    } else {
      assert all[..|all| - 1] == [l] + ls[..|ls| - 1];
      RunCons(s, l, ls[..|ls| - 1]);
    }
  }

  /** Shutdown completes: from every reachable state in which cleanup runs, a run leads to a state
      in which the main thread and every worker loop have ended, so every join has returned. */
  lemma {:induction false} ShutdownCompletes(s: System) returns (ls: seq<Label>)
    requires Inv(s) && s.cleaning
    ensures var t := Run(s, ls);
            && t.stop
            && forall u: nat :: u < |t.threads| && !t.threads[u].role.QueueWorker? ==> t.threads[u].over
    decreases Pending(s.threads, false), Pending(s.threads, true)
  {
    if Pending(s.threads, false) == 0 {
      forall u: nat | u < |s.threads| && !s.threads[u].role.QueueWorker?
        ensures s.threads[u].over
      {
        NonePending(s.threads, false, u);
      }
      return [];
    }
    var l := ShutdownProgress(s);
    NextKeeps(s, l);
    ShutdownStep(s, l);
    var rest := ShutdownCompletes(Next(s, l));
    RunCons(s, l, rest);
    ls := [l] + rest;
  }

  /** Why the flag must be raised: as long as nothing raises it, a loop other than the reader does
      not end, so a join on it would never return. */
  lemma {:induction false} WithoutFlagNoEnd(s: System, t: nat, ls: seq<Label>)
    requires !s.stop && t < |s.threads| && !s.threads[t].over
    requires s.threads[t].role.Loop? && !s.threads[t].role.worker.CavaReader?
    requires forall l :: l in ls ==> !l.Signal? && !l.CleanUp?
    ensures var now := Run(s, ls);
            && !now.stop && t < |now.threads| && now.threads[t].role == s.threads[t].role && !now.threads[t].over
            && !Free(now.threads, Lock(ThreadJoin, t))
  {
    if ls == [] {
      assert Holds(s.threads, t, Lock(ThreadJoin, t));
    } else {
      var init := ls[..|ls| - 1];
      WithoutFlagNoEnd(s, t, init);
      assert ls[|ls| - 1] in ls;
      var now := Run(s, ls);
      assert Holds(now.threads, t, Lock(ThreadJoin, t));
    }
  }
}
