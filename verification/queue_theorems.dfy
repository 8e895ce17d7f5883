/** What holds of the serial queue over every run of its threads. */
module QueueTheorems {
  import opened Base
  import opened QueueOrder
  import opened QueueLog
  import opened SerialQueues
  import opened QueueProtocol
  import opened QueueCalls
  import opened WriteOutcomes

  /** Conservation over every interleaving: the accepted items are those queued, the one the
      worker holds and those the worker is done with. */
  lemma AcceptedAccountedFor(c: Config, ls: seq<Label>)
    ensures var s := Run(c, STARTED, ls);
            && WORKER in s.threads
            && multiset(AcceptedItems(s.log))
               == multiset(s.sh.q) + multiset(Held(s.threads[WORKER])) + multiset(s.tried)
  {
    Reachable(c, ls);
    Conservation(Run(c, STARTED, ls).log, c.max);
  }

  /** What the worker writes for an item is the item's data, and nobody else writes for one. */
  predicate OwnData(w: Write) {
    if w.source.FromWorker? then w.thread == WORKER && w.data == w.source.item.data else w.thread != WORKER
  }

  lemma RegionWritesOwnData(c: Config, sh: Shared, t: nat, p: Position, n: int)
    requires if t == WORKER then WorkerPosition(p) else SenderPosition(p)
    ensures var e := Act(c, sh, t, p, n); |e.writes| <= 1 && (e.writes != [] ==> OwnData(e.writes[0]))
  {
  }

  lemma {:induction false} WritesOwnData(c: Config, ls: seq<Label>)
    ensures forall x :: x in Run(c, STARTED, ls).writes ==> OwnData(x)
  {
    if ls != [] {
      var s, l := Run(c, STARTED, ls[..|ls| - 1]), ls[|ls| - 1];
      WritesOwnData(c, ls[..|ls| - 1]);
      Reachable(c, ls[..|ls| - 1]);
      if Enabled(s, l) && l.Step? {
        RegionWritesOwnData(c, s.sh, l.thread, s.threads[l.thread], l.n);
      }
    }
  }

  /** The worker writes in queue order: its writes are the popped items in the order of their
      pops, each with its own data, none twice, increasing in sequence within each priority, and
      complete up to what it holds and at most one item given up once the queue had closed. */
  lemma WorkerWritesInOrder(c: Config, ls: seq<Label>)
    ensures var s := Run(c, STARTED, ls);
            var w := WorkerWrites(s.writes);
            && w <= PoppedItems(s.log)
            && (c.fdOpen ==> |w| + 2 > |PoppedItems(s.log)|)
            && (forall x :: x in s.writes ==> OwnData(x))
            && forall a, b :: 0 <= a < b < |w| ==>
                                w[a] != w[b] && (w[a].priority == w[b].priority ==> w[a].sequence < w[b].sequence)
  {
    Reachable(c, ls);
    WritesOwnData(c, ls);
    var s := Run(c, STARTED, ls);
    var w, p := WorkerWrites(s.writes), s.threads[WORKER];
    assert w <= s.tried + HeldAndWritten(p) <= s.tried + Held(p) == PoppedItems(s.log);
    forall a, b | 0 <= a < b < |w|
      ensures w[a] != w[b] && (w[a].priority == w[b].priority ==> w[a].sequence < w[b].sequence)
    {
      PopsIncrease(s.log, c.max, a, b);
    }
  }

  /** Bounded overtaking in every run: at every moment the queue holds at most `max` items, and
      between the acceptance of an item and its pop the other pops are of items that waited at
      its acceptance with no larger priority number, at most `max - 1` of these, or of later
      arrivals with a strictly smaller priority number. */
  lemma BoundedOvertaking(c: Config, ls: seq<Label>, a: nat, k: nat)
    requires var log := Run(c, STARTED, ls).log;
             a < k < |log| && log[a].Accepted? && log[k] == Popped(log[a].item)
    ensures var log := Run(c, STARTED, ls).log;
            var x := log[a].item;
            && |Run(c, STARTED, ls).sh.q| <= c.max
            && |OldPops(log, a, k)| <= c.max - 1
            && forall j :: a < j < k && log[j].Popped? ==> OvertakesAt(log, a, j)
  {
    Reachable(c, ls);
    var log := Run(c, STARTED, ls).log;
    QueueInvariant(log, c.max, |log|);
    OvertakingBound(log, c.max, a, k);
    forall j | a < j < k && log[j].Popped?
      ensures OvertakesAt(log, a, j)
    {
      Overtaking(log, c.max, a, j, k);
    }
  }

  // ---------- Progress ----------

  /** How often the worker looks for an item along `ls`. */
  function WorkerTurns(c: Config, s: System, ls: seq<Label>): nat {
    if ls == [] then 0
    else
      var init, l := ls[..|ls| - 1], ls[|ls| - 1];
      WorkerTurns(c, s, init) + if WorkerLooks(Run(c, s, init), l) then 1 else 0
  }

  predicate WorkerLooks(s: System, l: Label) {
    l.Step? && l.thread == WORKER && WORKER in s.threads && s.threads[WORKER] == WorkerTop
  }

  /** While the queue is open, every look at a queue that is not empty is a pop, and nothing else is. */
  lemma LookPops(c: Config, s: System, l: Label)
    requires Inv(c, s) && Next(c, s, l).sh.Open()
    ensures s.sh.Open()
    ensures WorkerLooks(s, l) && s.sh.q != [] ==> Next(c, s, l).log == s.log + [Popped(s.sh.q[0])]
    ensures !WorkerLooks(s, l) ==>
              Next(c, s, l).log == s.log || exists x :: Next(c, s, l).log == s.log + [Accepted(x)]
  {
    if Enabled(s, l) {
      if l.Step? {
        StepLogs(c, s, l.thread, l.n);
      } else {
        assert s.log + [] == s.log;
      }
    }
  }

  lemma StepLogs(c: Config, s: System, t: nat, n: int)
    requires Inv(c, s) && Enabled(s, Step(t, n))
    ensures var e := Act(c, s.sh, t, s.threads[t], n);
            && (e.sh.Open() ==> s.sh.Open())
            && (s.sh.Open() && s.sh.q != [] && s.threads[t] == WorkerTop ==> e.logged == [Popped(s.sh.q[0])])
            && (e.logged == [] || e.logged == [e.logged[0]])
            && (e.logged != [] && e.logged[0].Popped? ==> s.threads[t] == WorkerTop && t == WORKER)
            && s.log + [] == s.log
  {
    ClosedStays(c, s.sh, t, s.threads[t], n);
    ActOnQueue(c, s.sh, t, s.threads[t], n);
  }

  /** A waiting item that is not popped stays queued, and every look of the worker pops another. */
  lemma {:induction false} TurnsPop(c: Config, s: System, ls: seq<Label>, x: Item)
    requires Inv(c, s) && x in s.sh.q
    ensures var t := Run(c, s, ls);
            && Inv(c, t) && s.log <= t.log
            && (t.sh.Open() && Popped(x) !in t.log ==>
                  x in t.sh.q && |PoppedItems(t.log)| == |PoppedItems(s.log)| + WorkerTurns(c, s, ls))
  {
    if ls != [] {
      var init, l := ls[..|ls| - 1], ls[|ls| - 1];
      TurnsPop(c, s, init, x);
      var u := Run(c, s, init);
      InvKept(c, u, l);
      LogGrows(c, u, l);
      if Next(c, u, l).sh.Open() && Popped(x) !in Next(c, u, l).log {
        LookPops(c, u, l);
        TurnPops(c, u, l, x);
      }
    }
  }

  lemma LogGrows(c: Config, s: System, l: Label)
    ensures s.log <= Next(c, s, l).log
  {
  }

  lemma TurnPops(c: Config, s: System, l: Label, x: Item)
    requires Inv(c, s) && Inv(c, Next(c, s, l)) && Next(c, s, l).sh.Open()
    requires x in s.sh.q && Popped(x) !in Next(c, s, l).log
    ensures x in Next(c, s, l).sh.q
    ensures |PoppedItems(Next(c, s, l).log)| == |PoppedItems(s.log)| + if WorkerLooks(s, l) then 1 else 0
  {
    var log := Next(c, s, l).log;
    LookPops(c, s, l);
    if log != s.log {
      assert log[..|s.log|] == s.log;
      SamePrefix(s.log, log, |s.log|);
      assert LegalAt(log, c.max, |s.log|);
      assert log[|s.log|] in log;
      QueuedAfter(log, c.max, |s.log|, x);
    }
  }

  /** Every accepted item is served in time: as long as the queue is open, the worker has popped an
      item accepted at `a` once it has looked `max` times since, and one more time for each arrival
      since the acceptance that has a smaller priority number. */
  lemma ServedInTime(c: Config, before: seq<Label>, after: seq<Label>, a: nat)
    requires var log := Run(c, STARTED, before).log; a < |log| && log[a].Accepted?
    ensures var s := Run(c, STARTED, before);
            var t := Run(c, s, after);
            var x := s.log[a].item;
            && s.log <= t.log
            && (t.sh.Open() ==>
                  || Popped(x) in t.log
                  || WorkerTurns(c, s, after) < c.max + |Smaller(AcceptedItems(t.log[a + 1..]), x.priority)|)
  {
    Reachable(c, before);
    var s := Run(c, STARTED, before);
    var x := s.log[a].item;
    if Popped(x) in s.log {
      RunGrows(c, s, after);
    } else {
      StillQueued(s.log, c.max, a, |s.log|);
      TurnsPop(c, s, after, x);
      var t := Run(c, s, after);
      if t.sh.Open() && Popped(x) !in t.log {
        PopsBounded(t.log, c.max, a);
        PopsSince(s.log, t.log, a);
      }
    }
  }

  lemma {:induction false} RunGrows(c: Config, s: System, ls: seq<Label>)
    ensures s.log <= Run(c, s, ls).log
  {
    if ls != [] {
      RunGrows(c, s, ls[..|ls| - 1]);
      LogGrows(c, Run(c, s, ls[..|ls| - 1]), ls[|ls| - 1]);
    }
  }

  /** What was popped since `log` was popped since `a`. */
  lemma PopsSince(log: seq<Event>, more: seq<Event>, a: nat)
    requires a < |log| && log <= more
    ensures |PoppedItems(more[a + 1..])| >= |PoppedItems(more)| - |PoppedItems(log)|
  {
    assert more == more[..a + 1] + more[a + 1..] && log == more[..a + 1] + log[a + 1..];
    PoppedItemsSplit(more[..a + 1], more[a + 1..]);
    PoppedItemsSplit(more[..a + 1], log[a + 1..]);
  }

  // ---------- Three strikes ----------

  /** A run of three failures is either already followed by the disconnect flag or some thread
      is about to set it. */
  ghost predicate StrikeAnswered(s: System) {
    ThreeInARow(s.outcomes) ==> s.sh.disconnected || exists t :: t in s.threads && s.threads[t].WriteDisconnect?
  }

  lemma NewStrike(outcomes: seq<bool>, ok: bool)
    requires ThreeInARow(outcomes + [ok]) && !ThreeInARow(outcomes)
    ensures !ok && TrailingFailures(outcomes) >= 2
  {
    var more := outcomes + [ok];
    var k: nat :| k + 2 < |more| && !more[k] && !more[k + 1] && !more[k + 2];
    assert forall i :: 0 <= i < |outcomes| ==> more[i] == outcomes[i];
    assert k + 2 == |outcomes|;
    var init := outcomes[..|outcomes| - 1];
    assert init[|init| - 1] == more[k];
  }

  /** Who sets the flag or stands ready to. */
  lemma StrikeStep(sh: Shared, c: Config, t: nat, p: Position, n: int)
    ensures var e := Act(c, sh, t, p, n);
            && (sh.disconnected ==> e.sh.disconnected)
            && (p.WriteDisconnect? ==> e.sh.disconnected)
            && (e.outcomes != [] && !e.outcomes[0] && sh.errors >= 2 ==> e.next.WriteDisconnect?)
            && (e.outcomes != [] ==> |e.outcomes| == 1)
  {
  }

  lemma StrikeKept(c: Config, s: System, l: Label)
    requires Inv(c, s) && StrikeAnswered(s)
    ensures StrikeAnswered(Next(c, s, l))
  {
    var s' := Next(c, s, l);
    if Enabled(s, l) && ThreeInARow(s'.outcomes) && !s'.sh.disconnected {
      if l.Step? {
        var t, p := l.thread, s.threads[l.thread];
        var e := Act(c, s.sh, t, p, l.n);
        StrikeStep(s.sh, c, t, p, l.n);
        assert s.outcomes + [] == s.outcomes;
        if ThreeInARow(s.outcomes) {
          var u :| u in s.threads && s.threads[u].WriteDisconnect?;
          assert u != t && s'.threads[u].WriteDisconnect?;
        } else {
          assert e.outcomes == [e.outcomes[0]];
          NewStrike(s.outcomes, e.outcomes[0]);
          assert s'.threads[t].WriteDisconnect?;
        }
      } else {
        assert s'.outcomes == s.outcomes;
        var u :| u in s.threads && s.threads[u].WriteDisconnect?;
        assert s'.threads[u].WriteDisconnect?;
      }
    }
  }

  lemma {:induction false} StrikesAnswered(c: Config, ls: seq<Label>)
    ensures StrikeAnswered(Run(c, STARTED, ls))
  {
    if ls != [] {
      StrikesAnswered(c, ls[..|ls| - 1]);
      Reachable(c, ls[..|ls| - 1]);
      StrikeKept(c, Run(c, STARTED, ls[..|ls| - 1]), ls[|ls| - 1]);
    }
  }

  /** While the queue runs, the disconnect flag is set exactly when three failures stand in a row
      in error-lock order, up to the threads that are on their way to set it; and what stands there
      are the results of the writes: of each thread's own, once each and in their order, up to one
      it still owes. */
  lemma ThreeStrikes(c: Config, ls: seq<Label>)
    requires Run(c, STARTED, ls).sh.running
    ensures var s := Run(c, STARTED, ls);
            && (s.sh.disconnected ==> ThreeInARow(s.outcomes))
            && (ThreeInARow(s.outcomes) <==>
                s.sh.disconnected || exists t :: t in s.threads && s.threads[t].WriteDisconnect?)
            && Accounted(s, Accounters(c, STARTED, ls)) && Balanced(s, true) && Balanced(s, false)
  {
    Reachable(c, ls);
    StrikesAnswered(c, ls);
    EveryWriteAccounted(c, ls);
    OutcomesAreResults(c, ls, true);
    OutcomesAreResults(c, ls, false);
  }

  // ---------- After the queue has closed ----------

  /** The threads that have passed the guard and not yet written. */
  ghost function Passed(s: System): set<nat> {
    set t | t in s.threads && s.threads[t].WriteCall?
  }

  /** What a region does on a closed queue. */
  lemma ClosedStep(c: Config, sh: Shared, t: nat, p: Position, n: int)
    requires !sh.Open()
    ensures var e := Act(c, sh, t, p, n);
            && !e.sh.Open()
            && LoggedPops(e.logged) == []
            && !e.next.WriteCall?
            && (if p.WriteCall? then |e.writes| == 1 && e.writes[0].thread == t else e.writes == [])
  {
  }

  /** Since `s`, each new write is by a thread that had passed the guard in `s`, has left it,
      and wrote once; nothing was popped. */
  ghost predicate OnlyPassedWrite(s: System, t: System) {
    && !t.sh.Open()
    && PoppedItems(t.log) == PoppedItems(s.log)
    && s.writes <= t.writes
    && Passed(t) <= Passed(s)
    && (forall k :: |s.writes| <= k < |t.writes| ==> t.writes[k].thread in Passed(s) - Passed(t))
    && (forall j, k :: |s.writes| <= j < k < |t.writes| ==> t.writes[j].thread != t.writes[k].thread)
  }

  lemma OnlyPassedWriteApply(s: System, t: System, th: nat, e: Effect)
    requires OnlyPassedWrite(s, t) && th in t.threads
    requires !e.sh.Open() && !e.next.WriteCall?
    requires if t.threads[th].WriteCall? then |e.writes| == 1 && e.writes[0].thread == th else e.writes == []
    requires PoppedItems(t.log + e.logged) == PoppedItems(t.log)
    ensures OnlyPassedWrite(s, Apply(t, th, e))
  {
    var t' := Apply(t, th, e);
    assert Passed(t') == Passed(t) - {th};
    assert t.threads[th].WriteCall? ==> th in Passed(t);
  }

  lemma OnlyPassedWriteStep(c: Config, s: System, t: System, l: Label)
    requires OnlyPassedWrite(s, t) && Inv(c, t)
    ensures OnlyPassedWrite(s, Next(c, t, l))
  {
    if Enabled(t, l) {
      if l.Step? {
        OnlyPassedWriteRegion(c, s, t, l.thread, l.n);
      } else {
        var p := if l.Stop? then StopEnter else SendEnter(l.data, l.priority);
        CallAdds(c, t, l, p);
        OnlyPassedWriteCall(s, t, l.thread, p);
      }
    }
  }

  lemma OnlyPassedWriteCall(s: System, t: System, th: nat, p: Position)
    requires OnlyPassedWrite(s, t) && th !in t.threads && (p.StopEnter? || p.SendEnter?)
    ensures OnlyPassedWrite(s, t.(threads := t.threads[th := p]))
  {
    assert Passed(t.(threads := t.threads[th := p])) == Passed(t);
  }

  lemma OnlyPassedWriteRegion(c: Config, s: System, t: System, th: nat, n: int)
    requires OnlyPassedWrite(s, t) && Inv(c, t) && Enabled(t, Step(th, n))
    ensures OnlyPassedWrite(s, Next(c, t, Step(th, n)))
  {
    var p := t.threads[th];
    var e := Act(c, t.sh, th, p, n);
    ClosedStep(c, t.sh, th, p, n);
    ActOnQueue(c, t.sh, th, p, n);
    QueueInvKept(c, t, th, p, e);
    assert PoppedItems(t.log) + [] == PoppedItems(t.log);
    OnlyPassedWriteApply(s, t, th, e);
  }

  /** Once the queue has closed, by a disconnect or a stop, it stays closed: the worker pops
      nothing more, so whatever is queued or accepted later stays unsent, and only threads that
      had already passed the guard still write, each at most once. */
  lemma {:induction false} AfterClose(c: Config, s: System, ls: seq<Label>)
    requires Inv(c, s) && !s.sh.Open()
    ensures Inv(c, Run(c, s, ls)) && OnlyPassedWrite(s, Run(c, s, ls))
  {
    if ls != [] {
      var init := ls[..|ls| - 1];
      AfterClose(c, s, init);
      OnlyPassedWriteStep(c, s, Run(c, s, init), ls[|ls| - 1]);
      InvKept(c, Run(c, s, init), ls[|ls| - 1]);
    }
  }

  function BeforeStop(d: seq<byte>): System {
    STARTED.(threads := map[WORKER := WorkerTop, 1 := SendEnqueue(d, 0)])
  }

  /** Sender 1 was accepted after thread 2 had stopped the queue. */
  function AcceptedLate(d: seq<byte>): System {
    System(Shared([Item(0, 1, d)], 1, false, true, 0),
           map[WORKER := WorkerTop, 1 := Returned(true), 2 := StopJoin], [Accepted(Item(0, 1, d))], [], [], [], [])
  }

  /** The same two threads before sender 1 enters the stopped queue. */
  function StandsAtStopped(d: seq<byte>): System {
    System(Shared([], 0, false, true, 0),
           map[WORKER := WorkerTop, 1 := SendEnqueue(d, 0), 2 := StopJoin], [], [], [], [], [])
  }

  lemma PassesRunningCheck(c: Config, d: seq<byte>)
    ensures Run(c, STARTED, [Send(1, d, 0), Step(1, 0)]) == BeforeStop(d)
  {
    assert Run(c, STARTED, []) == STARTED;
    RunSnoc(c, STARTED, [], Send(1, d, 0));
    RunSnoc(c, STARTED, [Send(1, d, 0)], Step(1, 0));
  }

  lemma StoppedFirst(c: Config, d: seq<byte>)
    ensures Next(c, Next(c, BeforeStop(d), Stop(2)), Step(2, 0)) == StandsAtStopped(d)
  {
    var s3 := Next(c, BeforeStop(d), Stop(2));
    assert s3.threads[2] == StopEnter;
  }

  lemma ThenAccepted(c: Config, d: seq<byte>)
    requires c.max >= 1
    ensures Next(c, StandsAtStopped(d), Step(1, 0)) == AcceptedLate(d)
  {
    assert Insert([], Item(0, 1, d)) == [Item(0, 1, d)];
  }

  lemma NothingPoppedLate(c: Config, d: seq<byte>, ls: seq<Label>)
    requires Inv(c, AcceptedLate(d))
    ensures PoppedItems(Run(c, AcceptedLate(d), ls).log) == []
  {
    var log := AcceptedLate(d).log;
    assert log[..0] == [] && PoppedItems(log[..0]) == [];
    AfterClose(c, AcceptedLate(d), ls);
  }

  lemma LateRun(c: Config, d: seq<byte>) returns (before: seq<Label>)
    ensures Run(c, STARTED, before) == StandsAtStopped(d)
  {
    before := [Send(1, d, 0), Step(1, 0)];
    PassesRunningCheck(c, d);
    StoppedFirst(c, d);
    RunSnoc(c, STARTED, before, Stop(2));
    RunSnoc(c, STARTED, before + [Stop(2)], Step(2, 0));
    before := before + [Stop(2)] + [Step(2, 0)];
  }

  lemma LateInv(c: Config, d: seq<byte>, before: seq<Label>)
    requires c.max >= 1 && Run(c, STARTED, before) == StandsAtStopped(d)
    ensures Inv(c, AcceptedLate(d))
  {
    Reachable(c, before);
    ThenAccepted(c, d);
    InvKept(c, StandsAtStopped(d), Step(1, 0));
  }

  /** A send can be accepted after stop, for it passed its running check before: a run reaches a
      stopped queue that has accepted nothing and a sender that stands at it; its next step returns
      true with its item accepted, and the worker never pops it, whatever happens afterwards. */
  lemma LateAcceptance(c: Config, d: seq<byte>, ls: seq<Label>) returns (before: seq<Label>)
    requires c.max >= 1
    ensures var s := Run(c, STARTED, before);
            && !s.sh.running && s.log == [] && 1 in s.threads && s.threads[1] == SendEnqueue(d, 0)
            && Next(c, s, Step(1, 0)) == AcceptedLate(d)
    ensures PoppedItems(Run(c, AcceptedLate(d), ls).log) == []
  {
    before := LateRun(c, d);
    ThenAccepted(c, d);
    LateInv(c, d, before);
    NothingPoppedLate(c, d, ls);
  }

  lemma RunSnoc(c: Config, s: System, ls: seq<Label>, l: Label)
    ensures [] + [l] == [l]
    ensures Run(c, s, ls + [l]) == Next(c, Run(c, s, ls), l)
  {
    assert (ls + [l])[..|ls|] == ls;
  }

  // ---------- stop() returns ----------

  /** How many regions the worker still has before it ends on a closed queue. */
  function WorkerRank(p: Position): nat {
    match p
    case WriteGuard(_, _) => 5
    case WriteCall(_, _) => 4
    case WriteAccount(_, _, _) => 3
    case WriteDisconnect(_, _) => 2
    case WorkerTop => 1
    case _ => 0
  }

  /** Every step brings the worker nearer to its end, but for one at its top on an open queue. */
  lemma WorkerRankFalls(c: Config, sh: Shared, p: Position, n: int)
    requires (sh.Open() ==> p != WorkerTop) && WorkerPosition(p) && p != WorkerEnded
    ensures WorkerRank(Act(c, sh, WORKER, p, n).next) < WorkerRank(p)
  {
  }

  lemma WorkerMovesAlone(c: Config, t: System, l: Label)
    requires Inv(c, t) && !t.sh.Open()
    ensures WORKER in Next(c, t, l).threads
    ensures WorkerRank(Next(c, t, l).threads[WORKER]) +
            (if l.Step? && l.thread == WORKER && Enabled(t, l) then 1 else 0) <= WorkerRank(t.threads[WORKER])
  {
    if Enabled(t, l) && l.Step? && l.thread == WORKER {
      WorkerRankFalls(c, t.sh, t.threads[WORKER], l.n);
    }
  }

  lemma {:induction false} WorkerStepsBounded(c: Config, s: System, ls: seq<Label>)
    requires Inv(c, s) && !s.sh.Open()
    ensures WORKER in Run(c, s, ls).threads
    ensures StepsOf(c, s, ls, WORKER) + WorkerRank(Run(c, s, ls).threads[WORKER]) <= WorkerRank(s.threads[WORKER])
  {
    if ls != [] {
      var init, l := ls[..|ls| - 1], ls[|ls| - 1];
      WorkerStepsBounded(c, s, init);
      AfterClose(c, s, init);
      WorkerMovesAlone(c, Run(c, s, init), l);
    }
  }

  /** The join in stop() is never stuck: on a closed queue the worker takes at most five more
      steps however the other threads interleave, it can always take its next one, and when it
      can take none it has ended and every stopper that joins is released. */
  lemma StopReturns(c: Config, s: System, ls: seq<Label>)
    requires Inv(c, s) && !s.sh.Open()
    ensures var t := Run(c, s, ls);
            && WORKER in t.threads
            && StepsOf(c, s, ls, WORKER) + WorkerRank(t.threads[WORKER]) <= 5
            && (Enabled(t, Step(WORKER, 0)) <==> t.threads[WORKER] != WorkerEnded)
            && (t.threads[WORKER] == WorkerEnded ==>
                  forall u :: u in t.threads && t.threads[u] == StopJoin ==> Enabled(t, Step(u, 0)))
  {
    WorkerStepsBounded(c, s, ls);
    AfterClose(c, s, ls);
    var t := Run(c, s, ls);
    WorkerCanStep(t);
    StoppersReleased(t);
  }

  lemma WorkerCanStep(t: System)
    requires ThreadInv(t)
    ensures Enabled(t, Step(WORKER, 0)) <==> t.threads[WORKER] != WorkerEnded
  {
  }

  lemma StoppersReleased(t: System)
    requires ThreadInv(t)
    ensures t.threads[WORKER] == WorkerEnded ==>
              forall u :: u in t.threads && t.threads[u] == StopJoin ==> Enabled(t, Step(u, 0))
  {
  }

  /** Where the thread of a stop can stand: once it has looked at the queue, the queue has stopped. */
  predicate StopStands(s: System, t: nat) {
    && t in s.threads
    && (s.threads[t] == StopEnter
        || (!s.sh.running && (s.threads[t] == StopJoin || s.threads[t] == Stopped
                              || s.threads[t] == Position.Returned(false))))
  }

  lemma StopRegionKeeps(c: Config, s: System, u: nat, n: int, t: nat)
    requires StopStands(s, t) && Enabled(s, Step(u, n))
    ensures StopStands(Next(c, s, Step(u, n)), t)
    ensures u == t ==> Next(c, s, Step(u, n)).threads[t] != StopEnter
  {
  }

  lemma {:induction false} StopKeeps(c: Config, s: System, ls: seq<Label>, t: nat)
    requires StopStands(s, t)
    ensures StopStands(Run(c, s, ls), t)
    ensures StepsOf(c, s, ls, t) > 0 ==> Run(c, s, ls).threads[t] != StopEnter
  {
    if ls != [] {
      var init, l := ls[..|ls| - 1], ls[|ls| - 1];
      StopKeeps(c, s, init, t);
      if Enabled(Run(c, s, init), l) && l.Step? {
        StopRegionKeeps(c, Run(c, s, init), l.thread, l.n, t);
      }
    }
  }

  /** A stop stops the queue, in every run that contains it: after its first step the queue runs no
      more, and when it has returned from the join the worker has ended. */
  lemma StopStops(c: Config, before: seq<Label>, t: nat, after: seq<Label>)
    requires t !in Run(c, STARTED, before).threads
    ensures var begun := Next(c, Run(c, STARTED, before), Stop(t));
            var s := Run(c, begun, after);
            && t in s.threads && WORKER in s.threads
            && (StepsOf(c, begun, after, t) > 0 ==> !s.sh.running)
            && (s.threads[t] == Stopped ==> s.threads[WORKER] == WorkerEnded)
  {
    var begun := Next(c, Run(c, STARTED, before), Stop(t));
    StopKeeps(c, begun, after, t);
    Reachable(c, before);
    InvKept(c, Run(c, STARTED, before), Stop(t));
    InvAlong(c, begun, after);
  }

  lemma {:induction false} InvAlong(c: Config, s: System, ls: seq<Label>)
    requires Inv(c, s)
    ensures Inv(c, Run(c, s, ls))
  {
    if ls != [] {
      InvAlong(c, s, ls[..|ls| - 1]);
      InvKept(c, Run(c, s, ls[..|ls| - 1]), ls[|ls| - 1]);
    }
  }

  /** Thread `u` is a stop that joins the worker. */
  predicate Joins(s: System, u: nat) {
    u in s.threads && (s.threads[u] == StopJoin || s.threads[u] == Stopped)
  }

  /** While the queue runs no stop joins, and once it does not, exactly one does. */
  ghost predicate OneJoiner(s: System) {
    && (s.sh.running <==> forall u :: !Joins(s, u))
    && forall u, v :: Joins(s, u) && Joins(s, v) ==> u == v
  }

  /** The region that stops the queue is that of the stop that joins, and no other. */
  lemma JoiningRegion(c: Config, sh: Shared, t: nat, p: Position, n: int)
    ensures var e := Act(c, sh, t, p, n);
            && (p == StopJoin || p == Stopped ==> e.next == Stopped)
            && (p == StopEnter && sh.running ==> e.next == StopJoin && !e.sh.running)
            && (p != StopEnter || !sh.running ==>
                  && e.sh.running == sh.running
                  && (e.next == StopJoin || e.next == Stopped ==> p == StopJoin || p == Stopped))
  {
  }

  lemma OneJoinerKept(c: Config, s: System, l: Label)
    requires OneJoiner(s)
    ensures OneJoiner(Next(c, s, l))
  {
    hide Act;
    var s' := Next(c, s, l);
    if Enabled(s, l) {
      var t := l.thread;
      if l.Step? {
        JoiningRegion(c, s.sh, t, s.threads[t], l.n);
      }
      assert forall u :: u != t ==> (Joins(s', u) <==> Joins(s, u));
      assert Joins(s', t) <==> Joins(s, t) || (s.sh.running && !s'.sh.running);
    }
  }

  /** Of any number of stops exactly one joins the worker: the one that stops the queue. The others
      find it stopped and return. */
  lemma {:induction false} OneStopJoins(c: Config, ls: seq<Label>)
    ensures OneJoiner(Run(c, STARTED, ls))
  {
    if ls != [] {
      OneStopJoins(c, ls[..|ls| - 1]);
      OneJoinerKept(c, Run(c, STARTED, ls[..|ls| - 1]), ls[|ls| - 1]);
    }
  }
}
