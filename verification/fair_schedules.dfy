/** Why fairness is stated as it is: from every state of the shutdown there is a fair schedule, and
    with the weaker notion, by which only a thread that can always step must, it need not end. */
module FairSchedules {
  import opened Base
  import opened LockCode
  import opened LockOrder
  import opened HybridThreads
  import opened FairShutdown

  // ---------- A fair schedule exists ----------

  /** A thread that is not blocked takes its next step, once its queue is unplugged if it is a queue
      worker between two turns. */
  lemma OneLess(s: System) returns (ls: seq<Label>)
    requires Inv(s) && s.cleaning && Pending(s.threads, false) + Pending(s.threads, true) > 0
    ensures Inv(Run(s, ls)) && Run(s, ls).cleaning
    ensures Pending(Run(s, ls).threads, false) + Pending(Run(s, ls).threads, true) <
            Pending(s.threads, false) + Pending(s.threads, true)
  {
    var t := SomePending(s.threads, Pending(s.threads, false) == 0);
    var path := SomeoneRuns(s.threads, t);
    var u := path[|path| - 1];
    var role := s.threads[u].role;
    var l := if s.threads[u].plan == [] then Finish(u) else Advance(u);
    var before := if role.QueueWorker? then Unplug(role.queue) else Signal;
    var ready := Next(s, before);
    NextKeeps(s, before);
    assert ready.threads == s.threads;
    StepLightens(ready, u, l);
    NextKeeps(ready, l);
    ShutdownStep(ready, l);
    ls := [before, l];
    TwoLabels(s, before, l);
  }

  lemma TwoLabels(s: System, l: Label, m: Label)
    ensures Run(s, [l, m]) == Next(Next(s, l), m)
  {
    assert [l, m][..1] == [l] && [l][..0] == [];
    assert Run(s, [l]) == Next(Run(s, []), l);
  }

  lemma {:induction false} RunAppend(s: System, ls: seq<Label>, more: seq<Label>)
    ensures Run(s, ls + more) == Run(Run(s, ls), more)
  {
    if more == [] {
      assert ls + more == ls;
    } else {
      assert (ls + more)[..|ls + more| - 1] == ls + more[..|more| - 1];
      RunAppend(s, ls, more[..|more| - 1]);
    }
  }

  ghost predicate AllOver(s: System) {
    forall u: nat :: u < |s.threads| ==> s.threads[u].over
  }

  /** From every state of the shutdown a run ends every thread, the queue workers too. */
  lemma {:induction false} EndsAll(s: System) returns (ls: seq<Label>)
    requires Inv(s) && s.cleaning
    ensures AllOver(Run(s, ls)) && Inv(Run(s, ls)) && Run(s, ls).cleaning
    decreases Pending(s.threads, false) + Pending(s.threads, true)
  {
    if Pending(s.threads, false) + Pending(s.threads, true) == 0 {
      ls := [];
      forall u: nat | u < |s.threads|
        ensures s.threads[u].over
      {
        NonePending(s.threads, false, u);
        NonePending(s.threads, true, u);
      }
    } else {
      var first := OneLess(s);
      var rest := EndsAll(Run(s, first));
      RunAppend(s, first, rest);
      ls := first + rest;
    }
  }

  /** The schedule that goes through `ls` and then only raises the flag again. */
  function Playing(ls: seq<Label>): Schedule {
    (n: nat) => if n < |ls| then ls[n] else Signal
  }

  lemma {:induction false} PlayingAt(s: System, ls: seq<Label>, n: nat)
    requires n <= |ls|
    ensures At(s, Playing(ls), n) == Run(s, ls[..n])
  {
    if n > 0 {
      PlayingAt(s, ls, n - 1);
      assert ls[..n] == ls[..n - 1] + [ls[n - 1]];
      RunSnoc(s, ls[..n - 1], ls[n - 1]);
    }
  }

  lemma RunSnoc(s: System, ls: seq<Label>, l: Label)
    ensures Run(s, ls + [l]) == Next(Run(s, ls), l)
  {
    assert (ls + [l])[..|ls|] == ls;
  }

  lemma {:induction false} PlayedOut(s: System, ls: seq<Label>, n: nat)
    requires n >= |ls| && Run(s, ls).stop
    ensures At(s, Playing(ls), n) == Run(s, ls)
    decreases n
  {
    if n == |ls| {
      PlayingAt(s, ls, n);
      assert ls[..n] == ls;
    } else {
      PlayedOut(s, ls, n - 1);
      SignalAgain(Run(s, ls));
    }
  }

  lemma SignalAgain(s: System)
    requires s.stop
    ensures Next(s, Signal) == s
  {
  }

  /** Fairness can be had: from every state of the shutdown there is a fair schedule. */
  lemma FairScheduleExists(s: Shutdown) returns (sched: Schedule)
    ensures Fair(s, sched)
  {
    var ls := EndsAll(s);
    sched := Playing(ls);
    forall u: nat, n: nat
      ensures !OftenCan(s, sched, u, n)
    {
      var m := if n < |ls| then |ls| else n;
      if CanLater(s, sched, u, m) {
        var k: nat :| k >= m && CanStep(At(s, sched, k), u);
        PlayedOut(s, ls, k);
        assert false;
      }
    }
  }

  // ---------- Weak fairness is not enough ----------

  /** Every thread that can step at every moment from some moment on does step again. */
  ghost predicate WeaklyFair(s: System, sched: Schedule) {
    forall u: nat, n: nat :: AlwaysCan(s, sched, u, n) ==> exists k: nat :: k >= n && MovesAt(s, sched, u, k)
  }

  ghost predicate AlwaysCan(s: System, sched: Schedule, u: nat, n: nat) {
    forall k: nat :: k >= n ==> CanStep(At(s, sched, k), u)
  }

  /** A strongly fair schedule is weakly fair. */
  lemma FairIsWeaklyFair(s: System, sched: Schedule)
    requires Fair(s, sched)
    ensures WeaklyFair(s, sched)
  {
    forall u: nat, n: nat | AlwaysCan(s, sched, u, n)
      ensures exists k: nat :: k >= n && MovesAt(s, sched, u, k)
    {
      forall m: nat | m >= n
        ensures CanLater(s, sched, u, m)
      {
        assert CanStep(At(s, sched, m), u);
      }
      assert OftenCan(s, sched, u, n);
    }
  }

  const SENDER: nat := 1
  const LOOPER: nat := 2
  const STATE_LOCK := Lock(QueueState, 0)

  /** A bridge that has just started one loop, beside the worker of its queue. */
  const JUST_STARTED := System(
    [Thread(MainThread, [], [], false), Thread(Loop(SysinfoChecker), [], [], false),
     Thread(QueueWorker(0), [], [], false)], false, false, {}, {})

  function EmptyTurn(): Code {
    WorkerTurn(0, 0, None)
  }

  const LOGGED := [Acquire(Lock(LoggerLock, 0)), Release(Lock(LoggerLock, 0))]

  lemma BriefThen(l: Lock, cs: seq<Code>)
    ensures Actions(Steps([Briefly(l)] + cs)) == [Acquire(l), Release(l)] + AllActions(cs)
  {
    BrieflyActions(l);
    assert ([Briefly(l)] + cs)[1..] == cs;
  }

  /** A send has two short locks to take before it comes to the queue's state. */
  lemma SendPlan() returns (turn: Code, sender: seq<Action>)
    ensures Turn(Loop(SysinfoChecker), turn)
    ensures sender != [] && sender[0] == Acquire(STATE_LOCK)
    ensures Actions(turn) == [Acquire(Lock(SysinfoLock, 0)), Release(Lock(SysinfoLock, 0))] +
                             ([Acquire(Lock(SerialLock, 0)), Release(Lock(SerialLock, 0))] + sender)
  {
    var handle := Handle(0, false);
    var send, counted := SendMessage(0, Some(handle), Queued), Briefly(Lock(StatsLock, 0));
    turn := SysinfoTurn(Collected(Some(handle), Queued));
    TwoSteps(Briefly(Lock(SysinfoLock, 0)), Steps([send, counted]));
    BrieflyActions(Lock(SysinfoLock, 0));
    TwoSteps(send, counted);
    TwoSteps(Briefly(Lock(SerialLock, 0)), Steps([SendCode(0, Queued), DropHandle(handle)]));
    BrieflyActions(Lock(SerialLock, 0));
    TwoSteps(SendCode(0, Queued), DropHandle(handle));
    TwoSteps(Holding(STATE_LOCK, Steps([])), Briefly(STATE_LOCK));
    sender := Actions(SendCode(0, Queued)) + Actions(DropHandle(handle)) + Actions(counted);
  }

  lemma FirstJoin() returns (join: seq<Action>)
    ensures Actions(JoinAll([SENDER])) == LOGGED + join
    ensures join != [] && join[0] == Acquire(Lock(ThreadJoin, SENDER))
  {
    var steps := JoinAll([SENDER]).steps;
    assert steps == [LogLine()] + steps[1..];
    BriefThen(Lock(LoggerLock, 0), steps[1..]);
    assert steps[1..] == [Briefly(Lock(ThreadJoin, SENDER))] + steps[2..];
    BriefThen(Lock(ThreadJoin, SENDER), steps[2..]);
    join := AllActions(steps[1..]);
  }

  lemma ActionsCons(c: Code, cs: seq<Code>)
    ensures AllActions([c] + cs) == Actions(c) + AllActions(cs)
  {
    assert ([c] + cs)[1..] == cs;
  }

  lemma CleanupStart(join: Code, others: seq<Code>)
    ensures Actions(Steps([LogLine(), Steps([]), join] + others)) == LOGGED + (Actions(join) + AllActions(others))
  {
    var after := [Steps([])] + ([join] + others);
    assert [LogLine(), Steps([]), join] + others == [LogLine()] + after;
    BriefThen(Lock(LoggerLock, 0), after);
    ActionsCons(Steps([]), [join] + others);
    ActionsCons(join, others);
    assert Actions(Steps([])) == [];
  }

  /** A cleanup writes two log lines before it joins the loop. */
  lemma JoinPlan() returns (turn: Code, main: seq<Action>)
    ensures CleanupTurn(turn) && Actions(turn) == LOGGED + (LOGGED + main)
    ensures main != [] && main[0] == Acquire(Lock(ThreadJoin, SENDER))
  {
    turn := Cleanup(false, false, [SENDER], 0, Some(Handle(0, true)), true);
    var others := turn.steps[3..];
    assert turn.steps == [LogLine(), Steps([]), JoinAll([SENDER])] + others;
    CleanupStart(JoinAll([SENDER]), others);
    var join := FirstJoin();
    main := join + AllActions(others);
    Reassociate(LOGGED, join, AllActions(others));
  }

  lemma EmptyPlan()
    ensures Actions(EmptyTurn()) ==
            [Acquire(STATE_LOCK), Release(STATE_LOCK), Acquire(Lock(LoggerLock, 0)), Release(Lock(LoggerLock, 0))]
  {
    TwoSteps(Briefly(STATE_LOCK), LogLine());
    BrieflyActions(STATE_LOCK);
    BrieflyActions(Lock(LoggerLock, 0));
  }

  lemma AcquireStep(s: System, t: nat, l: Lock, rest: seq<Action>)
    requires t < |s.threads| && s.threads[t].plan == [Acquire(l)] + rest && s.threads[t].stack == []
    requires Free(s.threads, l)
    ensures Next(s, Advance(t)) == s.(threads := s.threads[t := s.threads[t].(stack := [l], plan := rest)])
  {
    assert ([Acquire(l)] + rest)[1..] == rest && [] + [l] == [l];
  }

  lemma ReleaseStep(s: System, t: nat, l: Lock, rest: seq<Action>)
    requires t < |s.threads| && s.threads[t].plan == [Release(l)] + rest && s.threads[t].stack == [l]
    ensures Next(s, Advance(t)) == s.(threads := s.threads[t := s.threads[t].(stack := [], plan := rest)])
  {
    assert ([Release(l)] + rest)[1..] == rest && [l][..0] == [];
  }

  /** A short lock that is free is taken and given back. */
  lemma BriefStep(s: System, t: nat, l: Lock, rest: seq<Action>)
    requires t < |s.threads| && s.threads[t].plan == [Acquire(l), Release(l)] + rest
    requires l.kind.SysinfoLock? || l.kind.SerialLock? || l.kind.LoggerLock?
    requires forall u: nat :: u < |s.threads| ==> s.threads[u].stack == []
    ensures Run(s, [Advance(t), Advance(t)]) == s.(threads := s.threads[t := s.threads[t].(plan := rest)])
  {
    hide Next, Enabled;
    TwoLabels(s, Advance(t), Advance(t));
    assert [Acquire(l), Release(l)] + rest == [Acquire(l)] + ([Release(l)] + rest);
    AcquireStep(s, t, l, [Release(l)] + rest);
    ReleaseStep(Next(s, Advance(t)), t, l, rest);
  }

  lemma TwoBriefSteps(s: System, t: nat, l: Lock, m: Lock, rest: seq<Action>) returns (ls: seq<Label>)
    requires t < |s.threads| && s.threads[t].plan == [Acquire(l), Release(l)] + ([Acquire(m), Release(m)] + rest)
    requires l.kind.SysinfoLock? || l.kind.SerialLock? || l.kind.LoggerLock?
    requires m.kind.SysinfoLock? || m.kind.SerialLock? || m.kind.LoggerLock?
    requires forall u: nat :: u < |s.threads| ==> s.threads[u].stack == []
    ensures Run(s, ls) == s.(threads := s.threads[t := s.threads[t].(plan := rest)])
  {
    var two := [Advance(t), Advance(t)];
    var more := [Acquire(m), Release(m)] + rest;
    BriefStep(s, t, l, more);
    BriefStep(s.(threads := s.threads[t := s.threads[t].(plan := more)]), t, m, rest);
    RunAppend(s, two, two);
    ls := two + two;
  }

  /** The main thread has come to `main` in its cleanup and the loop to `sender` in its send. */
  function Waiting(main: seq<Action>, sender: seq<Action>, looper: Thread): System {
    System([Thread(MainThread, [], main, false), Thread(Loop(SysinfoChecker), [], sender, false), looper],
           true, true, {}, {})
  }

  const BETWEEN_TURNS := Thread(QueueWorker(0), [], [], false)

  function Sending(sender: seq<Action>): System {
    Waiting([], sender, BETWEEN_TURNS).(stop := false, cleaning := false)
  }

  /** The loop comes to the queue's state. */
  lemma SenderWaits(turn: Code, sender: seq<Action>) returns (ls: seq<Label>)
    requires Turn(Loop(SysinfoChecker), turn)
    requires Actions(turn) == [Acquire(Lock(SysinfoLock, 0)), Release(Lock(SysinfoLock, 0))] +
                              ([Acquire(Lock(SerialLock, 0)), Release(Lock(SerialLock, 0))] + sender)
    ensures Run(JUST_STARTED, ls) == Sending(sender)
  {
    var begin := Begin(SENDER, turn);
    assert [begin][..0] == [];
    assert Run(JUST_STARTED, [begin]) == Sending(Actions(turn));
    var more := TwoBriefSteps(Sending(Actions(turn)), SENDER, Lock(SysinfoLock, 0), Lock(SerialLock, 0), sender);
    RunAppend(JUST_STARTED, [begin], more);
    ls := [begin] + more;
  }

  lemma CleanupBegins(sender: seq<Action>, turn: Code)
    requires CleanupTurn(turn)
    ensures Run(Sending(sender), [Signal, CleanUp(turn)]) == Waiting(Actions(turn), sender, BETWEEN_TURNS)
  {
    TwoLabels(Sending(sender), Signal, CleanUp(turn));
  }

  /** Then the flag is raised and the main thread comes to the join. */
  lemma MainWaits(sender: seq<Action>, turn: Code, main: seq<Action>) returns (ls: seq<Label>)
    requires CleanupTurn(turn) && Actions(turn) == LOGGED + (LOGGED + main)
    ensures Run(Sending(sender), ls) == Waiting(main, sender, BETWEEN_TURNS)
  {
    CleanupBegins(sender, turn);
    var begun := Waiting(Actions(turn), sender, BETWEEN_TURNS);
    var more := TwoBriefSteps(begun, MAIN, Lock(LoggerLock, 0), Lock(LoggerLock, 0), main);
    RunAppend(Sending(sender), [Signal, CleanUp(turn)], more);
    ls := [Signal, CleanUp(turn)] + more;
  }

  lemma BothCome() returns (ls: seq<Label>, main: seq<Action>, sender: seq<Action>)
    ensures Run(JUST_STARTED, ls) == Waiting(main, sender, BETWEEN_TURNS) && BothWait(main, sender)
  {
    var cleanup, send;
    cleanup, main := JoinPlan();
    send, sender := SendPlan();
    ls := SenderWaits(send, sender);
    var more := MainWaits(sender, cleanup, main);
    RunAppend(JUST_STARTED, ls, more);
    ls := ls + more;
  }

  /** The queue worker over one empty turn. */
  function Phase(i: nat): Thread
    requires i < 5
  {
    var plan := [Acquire(STATE_LOCK), Release(STATE_LOCK), Acquire(Lock(LoggerLock, 0)), Release(Lock(LoggerLock, 0))];
    match i
    case 0 => BETWEEN_TURNS
    case 1 => Thread(QueueWorker(0), [], plan, false)
    case 2 => Thread(QueueWorker(0), [STATE_LOCK], plan[1..], false)
    case 3 => Thread(QueueWorker(0), [], plan[2..], false)
    case 4 => Thread(QueueWorker(0), [Lock(LoggerLock, 0)], plan[3..], false)
  }

  /** Only the queue worker moves, turn after empty turn. */
  function Spinning(): Schedule {
    (n: nat) => if n % 5 == 0 then Begin(LOOPER, EmptyTurn()) else Advance(LOOPER)
  }

  /** The main thread waits for the loop, and the loop has come to the queue's state. */
  predicate BothWait(main: seq<Action>, sender: seq<Action>) {
    && main != [] && main[0] == Acquire(Lock(ThreadJoin, SENDER))
    && sender != [] && sender[0] == Acquire(STATE_LOCK)
  }

  lemma PhaseStep(main: seq<Action>, sender: seq<Action>, n: nat)
    requires BothWait(main, sender)
    ensures var s := Waiting(main, sender, Phase(n % 5));
            && Next(s, Spinning()(n)) == Waiting(main, sender, Phase((n + 1) % 5))
            && Moves(s, Spinning()(n), LOOPER)
  {
    var i := n % 5;
    assert (n + 1) % 5 == if i == 4 then 0 else i + 1;
    match i
    case 0 => TurnBegins(main, sender);
    case 1 => LockTaken(main, sender, 1, STATE_LOCK);
    case 2 => LockDropped(main, sender, 2);
    case 3 => LockTaken(main, sender, 3, Lock(LoggerLock, 0));
    case 4 => LockDropped(main, sender, 4);
  }

  lemma TurnBegins(main: seq<Action>, sender: seq<Action>)
    ensures Enabled(Waiting(main, sender, Phase(0)), Begin(LOOPER, EmptyTurn()))
    ensures Next(Waiting(main, sender, Phase(0)), Begin(LOOPER, EmptyTurn())) == Waiting(main, sender, Phase(1))
  {
    EmptyPlan();
    assert Turn(QueueWorker(0), EmptyTurn());
  }

  lemma LockTaken(main: seq<Action>, sender: seq<Action>, i: nat, l: Lock)
    requires i < 4 && Phase(i).plan != [] && Phase(i).plan[0] == Acquire(l) && Phase(i).stack == []
    requires l.kind.QueueState? || l.kind.LoggerLock?
    requires Phase(i + 1) == Thread(QueueWorker(0), [l], Phase(i).plan[1..], false)
    ensures Enabled(Waiting(main, sender, Phase(i)), Advance(LOOPER))
    ensures Next(Waiting(main, sender, Phase(i)), Advance(LOOPER)) == Waiting(main, sender, Phase(i + 1))
  {
    assert Free(Waiting(main, sender, Phase(i)).threads, l);
    assert [] + [l] == [l];
  }

  lemma LockDropped(main: seq<Action>, sender: seq<Action>, i: nat)
    requires i == 2 || i == 4
    ensures Enabled(Waiting(main, sender, Phase(i)), Advance(LOOPER))
    ensures Next(Waiting(main, sender, Phase(i)), Advance(LOOPER)) ==
            Waiting(main, sender, Phase(if i == 4 then 0 else i + 1))
  {
    assert Phase(i).stack[..0] == [] && Phase(2).plan[1..] == Phase(3).plan && Phase(4).plan[1..] == [];
  }

  lemma SpinAt(main: seq<Action>, sender: seq<Action>, n: nat)
    requires BothWait(main, sender)
    ensures At(Waiting(main, sender, BETWEEN_TURNS), Spinning(), n) == Waiting(main, sender, Phase(n % 5))
  {
    var states: nat -> System := (k: nat) => Waiting(main, sender, Phase(k % 5));
    forall k: nat, next: nat | next == k + 1
      ensures Next(states(k), Spinning()(k)) == states(next)
    {
      PhaseStep(main, sender, k);
    }
    GoesThrough(Waiting(main, sender, BETWEEN_TURNS), Spinning(), states, n);
  }

  /** A schedule goes through `states` when each of its steps does. */
  lemma {:induction false} GoesThrough(s: System, sched: Schedule, states: nat -> System, n: nat)
    requires states(0) == s
    requires forall k: nat, next: nat :: next == k + 1 ==> Next(states(k), sched(k)) == states(next)
    ensures At(s, sched, n) == states(n)
  {
    if n > 0 {
      GoesThrough(s, sched, states, n - 1);
    }
  }

  /** While the worker holds the queue's state neither the loop nor the main thread can step. */
  lemma LooperAlone(main: seq<Action>, sender: seq<Action>, u: nat)
    requires BothWait(main, sender) && CanStep(Waiting(main, sender, Phase(2)), u)
    ensures u == LOOPER
  {
    var ts := Waiting(main, sender, Phase(2)).threads;
    assert Holds(ts, SENDER, Lock(ThreadJoin, SENDER));
    assert Holds(ts, LOOPER, STATE_LOCK);
  }

  lemma OnlyLooper(main: seq<Action>, sender: seq<Action>, k: nat, u: nat)
    requires BothWait(main, sender) && k % 5 == 2
    requires CanStep(At(Waiting(main, sender, BETWEEN_TURNS), Spinning(), k), u)
    ensures u == LOOPER
  {
    SpinAt(main, sender, k);
    LooperAlone(main, sender, u);
  }

  lemma AlwaysLooper(main: seq<Action>, sender: seq<Action>, n: nat, u: nat)
    requires BothWait(main, sender)
    requires AlwaysCan(Waiting(main, sender, BETWEEN_TURNS), Spinning(), u, n)
    ensures u == LOOPER
  {
    var k := 5 * n + 2;
    assert CanStep(At(Waiting(main, sender, BETWEEN_TURNS), Spinning(), k), u);
    OnlyLooper(main, sender, k, u);
  }

  lemma SpinMoves(main: seq<Action>, sender: seq<Action>, n: nat)
    requires BothWait(main, sender)
    ensures var s := Waiting(main, sender, BETWEEN_TURNS);
            && MovesAt(s, Spinning(), LOOPER, n)
            && !MovesAt(s, Spinning(), MAIN, n) && !MovesAt(s, Spinning(), SENDER, n)
  {
    SpinAt(main, sender, n);
    PhaseStep(main, sender, n);
  }

  lemma SpinIsWeaklyFair(main: seq<Action>, sender: seq<Action>)
    requires BothWait(main, sender)
    ensures WeaklyFair(Waiting(main, sender, BETWEEN_TURNS), Spinning())
  {
    var s := Waiting(main, sender, BETWEEN_TURNS);
    forall u: nat, n: nat | AlwaysCan(s, Spinning(), u, n)
      ensures exists k: nat :: k >= n && MovesAt(s, Spinning(), u, k)
    {
      AlwaysLooper(main, sender, n, u);
      SpinMoves(main, sender, n);
    }
  }

  /** Why strong fairness: a reachable state of the shutdown and a weakly fair schedule from it under
      which neither a loop that waits for the state of an open queue nor the main thread that joins
      it ever moves, for the state is free again and again and always taken by the queue's worker. */
  lemma WeakFairnessStarves() returns (ls: seq<Label>, sched: Schedule)
    ensures Initial(JUST_STARTED) && Good(Run(JUST_STARTED, ls))
    ensures var s := Run(JUST_STARTED, ls);
            && WeaklyFair(s, sched) && Own(s, MAIN) && Own(s, SENDER)
            && s.threads[SENDER].plan != [] && s.threads[SENDER].plan[0] == Acquire(STATE_LOCK)
            && forall n: nat ::
                 && !MovesAt(s, sched, MAIN, n) && !MovesAt(s, sched, SENDER, n)
                 && Own(At(s, sched, n), MAIN) && !At(s, sched, n).threads[MAIN].over
                 && Own(At(s, sched, n), SENDER) && !At(s, sched, n).threads[SENDER].over
  {
    var main, sender;
    ls, main, sender := BothCome();
    sched := Spinning();
    ReachableExclusive(JUST_STARTED, ls);
    SpinIsWeaklyFair(main, sender);
    var s := Run(JUST_STARTED, ls);
    forall n: nat
      ensures !MovesAt(s, sched, MAIN, n) && !MovesAt(s, sched, SENDER, n)
      ensures At(s, sched, n) == Waiting(main, sender, Phase(n % 5))
    {
      SpinAt(main, sender, n);
      SpinMoves(main, sender, n);
    }
  }
}
