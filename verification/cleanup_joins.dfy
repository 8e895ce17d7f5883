/** What has happened by the time cleanup is over: everything it joins has ended. */
module CleanupJoins {
  import opened Base
  import opened LockOrder
  import opened LockCode
  import opened HybridThreads

  /** All threads whose end `l` stands for have ended. */
  ghost predicate AllEnded(ts: seq<Thread>, l: Lock) {
    forall u: nat :: u < |ts| && Token(ts[u].role, u) == Some(l) ==> ts[u].over
  }

  /** The main thread has still to join what `l` stands for, or it has ended. */
  ghost predicate Awaited(s: System, l: Lock) {
    && |s.threads| > 0 && s.cleaning
    && (Acquire(l) in s.threads[MAIN].plan || AllEnded(s.threads, l))
  }

  /** The main thread has still to tell the queue to stop, or it has been told. */
  ghost predicate ToldToStop(s: System, q: nat) {
    && |s.threads| > 0 && s.cleaning
    && (QueueStops(q) in s.threads[MAIN].plan || q in s.closed)
  }

  lemma FreeMeansEnded(ts: seq<Thread>, l: Lock)
    requires Free(ts, l)
    ensures AllEnded(ts, l)
  {
    forall u: nat | u < |ts| && Token(ts[u].role, u) == Some(l)
      ensures ts[u].over
    {
      assert !Holds(ts, u, l);
    }
  }

  /** While cleanup runs no thread is added or comes back. */
  lemma EndedStays(s: System, l: Label, u: nat)
    requires Inv(s) && s.cleaning
    ensures |Next(s, l).threads| == |s.threads|
    ensures u < |s.threads| ==> Next(s, l).threads[u].role == s.threads[u].role
    ensures u < |s.threads| && s.threads[u].over ==> Next(s, l).threads[u].over
  {
    if u < |s.threads| && s.threads[u].over {
      assert Disciplined(s.threads[u]);
    }
  }

  lemma AllEndedStays(s: System, l: Label, lock: Lock)
    requires Inv(s) && s.cleaning && AllEnded(s.threads, lock)
    ensures AllEnded(Next(s, l).threads, lock)
  {
    forall u: nat | u < |Next(s, l).threads| && Token(Next(s, l).threads[u].role, u) == Some(lock)
      ensures Next(s, l).threads[u].over
    {
      EndedStays(s, l, u);
    }
  }

  /** What a step does to the main thread's plan while cleanup runs. */
  lemma MainPlan(s: System, l: Label)
    requires Inv(s) && s.cleaning
    ensures Next(s, l).cleaning && |Next(s, l).threads| > 0 && s.closed <= Next(s, l).closed
    ensures Next(s, l).threads[MAIN].plan == s.threads[MAIN].plan
            || (l == Advance(MAIN) && Enabled(s, l) && Next(s, l).threads[MAIN].plan == s.threads[MAIN].plan[1..])
  {
  }

  lemma InRest<T>(s: seq<T>, x: T)
    requires s != [] && x in s && x != s[0]
    ensures x in s[1..]
  {
    var i :| 0 <= i < |s| && s[i] == x;
    assert s[1..][i - 1] == x;
  }

  lemma AwaitedStep(s: System, l: Label, lock: Lock)
    requires Inv(s) && Awaited(s, lock)
    ensures Awaited(Next(s, l), lock)
  {
    MainPlan(s, l);
    if AllEnded(s.threads, lock) {
      AllEndedStays(s, l, lock);
    } else if Next(s, l).threads[MAIN].plan != s.threads[MAIN].plan {
      if s.threads[MAIN].plan[0] == Acquire(lock) {
        FreeMeansEnded(s.threads, lock);
      } else {
        InRest(s.threads[MAIN].plan, Acquire(lock));
      }
    }
  }

  lemma ToldStep(s: System, l: Label, q: nat)
    requires Inv(s) && ToldToStop(s, q)
    ensures ToldToStop(Next(s, l), q)
  {
    MainPlan(s, l);
    if q !in s.closed && Next(s, l).threads[MAIN].plan != s.threads[MAIN].plan {
      if s.threads[MAIN].plan[0] != QueueStops(q) {
        InRest(s.threads[MAIN].plan, QueueStops(q));
      }
    }
  }

  lemma {:induction false} AwaitedAlong(s: System, ls: seq<Label>, lock: Lock)
    requires Inv(s) && Awaited(s, lock)
    ensures Inv(Run(s, ls)) && Awaited(Run(s, ls), lock)
  {
    hide Inv, Awaited, Next;
    if ls != [] {
      var init, l := ls[..|ls| - 1], ls[|ls| - 1];
      AwaitedAlong(s, init, lock);
      NextKeeps(Run(s, init), l);
      AwaitedStep(Run(s, init), l, lock);
    }
  }

  lemma {:induction false} ToldAlong(s: System, ls: seq<Label>, q: nat)
    requires Inv(s) && ToldToStop(s, q)
    ensures Inv(Run(s, ls)) && ToldToStop(Run(s, ls), q)
  {
    hide Inv, ToldToStop, Next;
    if ls != [] {
      var init, l := ls[..|ls| - 1], ls[|ls| - 1];
      ToldAlong(s, init, q);
      NextKeeps(Run(s, init), l);
      ToldStep(Run(s, init), l, q);
    }
  }

  // ---------- What cleanup plans ----------

  lemma {:induction false} StepActs(cs: seq<Code>, i: nat, a: Action)
    requires i < |cs| && a in Actions(cs[i])
    ensures a in AllActions(cs)
  {
    if i > 0 {
      StepActs(cs[1..], i - 1, a);
    }
  }

  lemma BriefActs(l: Lock)
    ensures Acquire(l) in Actions(Briefly(l))
  {
    BrieflyActions(l);
  }

  lemma {:induction false} JoinsEach(handles: seq<nat>, t: nat)
    requires t in handles
    ensures Acquire(Lock(ThreadJoin, t)) in Actions(JoinAll(handles))
  {
    var steps := JoinAll(handles).steps;
    if handles[0] == t {
      BriefActs(Lock(ThreadJoin, t));
      StepActs(steps, 1, Acquire(Lock(ThreadJoin, t)));
    } else {
      InRest(handles, t);
      JoinsEach(handles[1..], t);
      StepActs(steps, 2, Acquire(Lock(ThreadJoin, t)));
    }
  }

  lemma StopJoins(q: nat)
    ensures QueueStops(q) in Actions(StopCode(q, true)) && Acquire(Lock(QueueJoin, q)) in Actions(StopCode(q, true))
  {
    var steps := StopCode(q, true).steps;
    BriefActs(Lock(QueueJoin, q));
    StepActs(steps, 2, Acquire(Lock(QueueJoin, q)));
    assert Actions(ClearRunning(q)) == [QueueStops(q)];
    StepActs(steps, 0, QueueStops(q));
  }

  lemma CloseJoins(comm: nat, h: Handle, a: Action)
    requires a in Actions(StopCode(h.id, true))
    ensures a in Actions(CloseCode(comm, Some(h), true))
  {
    var inner := Steps([StopCode(h.id, true), DropHandle(h)]);
    StepActs(inner.steps, 0, a);
    assert Actions(CloseCode(comm, Some(h), true)) ==
           [Acquire(Lock(SerialLock, comm))] + Actions(inner) + [Release(Lock(SerialLock, comm))];
  }

  lemma CleanupPlansJoin(mpd: bool, connected: bool, handles: seq<nat>, cava: nat, queue: Option<Handle>,
      wasRunning: bool, t: nat)
    requires t in handles
    ensures Acquire(Lock(ThreadJoin, t)) in Actions(Cleanup(mpd, connected, handles, cava, queue, wasRunning))
  {
    JoinsEach(handles, t);
    StepActs(Cleanup(mpd, connected, handles, cava, queue, wasRunning).steps, 2, Acquire(Lock(ThreadJoin, t)));
  }

  lemma CleanupPlansStop(mpd: bool, connected: bool, handles: seq<nat>, cava: nat, h: Handle)
    ensures var plan := Actions(Cleanup(mpd, connected, handles, cava, Some(h), true));
            QueueStops(h.id) in plan && Acquire(Lock(QueueJoin, h.id)) in plan
  {
    var steps := Cleanup(mpd, connected, handles, cava, Some(h), true).steps;
    StopJoins(h.id);
    CloseJoins(0, h, QueueStops(h.id));
    CloseJoins(0, h, Acquire(Lock(QueueJoin, h.id)));
    StepActs(steps, 5, QueueStops(h.id));
    StepActs(steps, 5, Acquire(Lock(QueueJoin, h.id)));
  }

  // ---------- The theorem ----------

  lemma MainOver(s: System, l: Lock)
    requires Inv(s) && Awaited(s, l) && s.threads[MAIN].over
    ensures AllEnded(s.threads, l)
  {
    assert Disciplined(s.threads[MAIN]);
  }

  lemma ToldByEnd(s: System, q: nat)
    requires Inv(s) && ToldToStop(s, q) && s.threads[MAIN].over
    ensures q in s.closed
  {
    assert Disciplined(s.threads[MAIN]);
  }

  /** When cleanup is over, in every run from its start, each worker thread whose handle it was
      given has ended. */
  lemma HandlesJoined(s: System, mpd: bool, connected: bool, handles: seq<nat>, cava: nat, queue: Option<Handle>,
      wasRunning: bool, ls: seq<Label>, t: nat)
    requires Inv(s) && Enabled(s, CleanUp(Cleanup(mpd, connected, handles, cava, queue, wasRunning)))
    requires t in handles && t < |s.threads| && s.threads[t].role.Loop?
    ensures var begun := Next(s, CleanUp(Cleanup(mpd, connected, handles, cava, queue, wasRunning)));
            var now := Run(begun, ls);
            && |now.threads| == |s.threads| && now.threads[t].role == s.threads[t].role
            && (now.threads[MAIN].over ==> now.threads[t].over)
  {
    var turn := Cleanup(mpd, connected, handles, cava, queue, wasRunning);
    var begun := Next(s, CleanUp(turn));
    var l := Lock(ThreadJoin, t);
    NextKeeps(s, CleanUp(turn));
    CleanupPlansJoin(mpd, connected, handles, cava, queue, wasRunning, t);
    BegunAwaits(s, turn, l);
    AwaitedAlong(begun, ls, l);
    RolesStay(begun, ls, t);
    if Run(begun, ls).threads[MAIN].over {
      MainOver(Run(begun, ls), l);
    }
  }

  lemma BegunAwaits(s: System, turn: Code, l: Lock)
    requires Inv(s) && Enabled(s, CleanUp(turn)) && Acquire(l) in Actions(turn)
    ensures Awaited(Next(s, CleanUp(turn)), l)
  {
  }

  lemma {:induction false} RolesStay(s: System, ls: seq<Label>, t: nat)
    requires Inv(s) && s.cleaning && t < |s.threads|
    ensures Inv(Run(s, ls)) && Run(s, ls).cleaning && |Run(s, ls).threads| == |s.threads|
    ensures Run(s, ls).threads[t].role == s.threads[t].role
  {
    hide Inv, Next;
    if ls != [] {
      var init, l := ls[..|ls| - 1], ls[|ls| - 1];
      RolesStay(s, init, t);
      NextKeeps(Run(s, init), l);
      MainPlan(Run(s, init), l);
      EndedStays(Run(s, init), l, t);
    }
  }

  /** And a queue that was still running has been told to stop and its workers have ended. */
  lemma QueueJoined(s: System, mpd: bool, connected: bool, handles: seq<nat>, cava: nat, h: Handle, ls: seq<Label>,
      t: nat)
    requires Inv(s) && Enabled(s, CleanUp(Cleanup(mpd, connected, handles, cava, Some(h), true)))
    requires t < |s.threads| && s.threads[t].role == QueueWorker(h.id)
    ensures var now := Run(Next(s, CleanUp(Cleanup(mpd, connected, handles, cava, Some(h), true))), ls);
            && |now.threads| == |s.threads| && now.threads[t].role == s.threads[t].role
            && (now.threads[MAIN].over ==> h.id in now.closed && now.threads[t].over)
  {
    var turn := Cleanup(mpd, connected, handles, cava, Some(h), true);
    var begun := Next(s, CleanUp(turn));
    var l := Lock(QueueJoin, h.id);
    NextKeeps(s, CleanUp(turn));
    CleanupPlansStop(mpd, connected, handles, cava, h);
    BegunAwaits(s, turn, l);
    AwaitedAlong(begun, ls, l);
    ToldAlong(begun, ls, h.id);
    RolesStay(begun, ls, t);
    if Run(begun, ls).threads[MAIN].over {
      MainOver(Run(begun, ls), l);
      ToldByEnd(Run(begun, ls), h.id);
    }
  }
}
