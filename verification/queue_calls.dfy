/** What a single send amounts to, and what its result says, in every run of the queue's threads. */
module QueueCalls {
  import opened Base
  import opened QueueOrder
  import opened QueueLog
  import opened SerialQueues
  import opened QueueProtocol

  // ---------- The writes of a call ----------

  /** The calls of write(2) that thread `t` made. */
  function WritesBy(writes: seq<Write>, t: nat): seq<Write> {
    if writes == [] then []
    else
      var last := writes[|writes| - 1];
      WritesBy(writes[..|writes| - 1], t) + if last.thread == t then [last] else []
  }

  lemma WritesByAppend(writes: seq<Write>, more: seq<Write>, t: nat)
    requires |more| <= 1
    ensures WritesBy(writes + more, t) == WritesBy(writes, t) + if more != [] && more[0].thread == t then more else []
  {
    if more == [] {
      assert writes + more == writes;
    } else {
      assert more == [more[0]];
      assert (writes + more)[..|writes|] == writes;
    }
  }

  predicate OneWrite(own: seq<Write>, data: seq<byte>, ok: bool) {
    |own| == 1 && own[0].data == data && ok == (own[0].n >= 0)
  }

  /** How far a send of `data` with `priority` can have come when its thread stands at `p`, given
      its own writes so far and whether the guard lets writers through. A critical send writes its
      data itself, once, unless the guard is closed, and never enters the queue; any other send
      never writes. */
  predicate Stands(own: seq<Write>, data: seq<byte>, priority: int, open: bool, p: Position) {
    match p
    case SendEnter(d, pr) => d == data && pr == priority && own == []
    case SendEnqueue(d, pr) => d == data && pr == priority >= 0 && own == []
    case WriteGuard(source, d) => source.FromSender? && d == data && priority < 0 && own == []
    case WriteCall(source, d) => source.FromSender? && d == data && priority < 0 && own == []
    case WriteAccount(source, d, ok) => source.FromSender? && d == data && priority < 0 && OneWrite(own, data, ok)
    case WriteDisconnect(source, d) => source.FromSender? && d == data && priority < 0 && OneWrite(own, data, false)
    case Returned(result) =>
      if priority < 0 then OneWrite(own, data, result) || (!result && own == [] && !open) else own == []
    case _ => false
  }

  /** The guard of write_to_device. */
  predicate LetsWrite(c: Config, sh: Shared) {
    c.fdOpen && sh.Open()
  }

  lemma OwnRegion(c: Config, sh: Shared, own: seq<Write>, data: seq<byte>, priority: int, t: nat, p: Position, n: int)
    requires Stands(own, data, priority, LetsWrite(c, sh), p)
    ensures var e := Act(c, sh, t, p, n);
            && |e.writes| <= 1 && (e.writes != [] ==> e.writes[0].thread == t)
            && Stands(own + e.writes, data, priority, LetsWrite(c, e.sh), e.next)
  {
    assert own + [] == own;
    match p {
      case WriteCall(source, d) =>
        assert [] + [Write(t, source, d, n)] == [Write(t, source, d, n)];
      case _ =>
    }
  }

  lemma WritesAreOwn(c: Config, sh: Shared, t: nat, p: Position, n: int)
    ensures var e := Act(c, sh, t, p, n); |e.writes| <= 1 && (e.writes != [] ==> e.writes[0].thread == t)
  {
  }

  predicate CallStands(c: Config, s: System, t: nat, data: seq<byte>, priority: int) {
    t in s.threads && Stands(WritesBy(s.writes, t), data, priority, LetsWrite(c, s.sh), s.threads[t])
  }

  lemma CallKept(c: Config, s: System, l: Label, t: nat, data: seq<byte>, priority: int)
    requires CallStands(c, s, t, data, priority)
    ensures CallStands(c, Next(c, s, l), t, data, priority)
  {
    if Enabled(s, l) {
      match l {
        case Step(u, n) =>
          var e := Act(c, s.sh, u, s.threads[u], n);
          WritesAreOwn(c, s.sh, u, s.threads[u], n);
          WritesByAppend(s.writes, e.writes, t);
          ClosedStays(c, s.sh, u, s.threads[u], n);
          if u == t {
            OwnRegion(c, s.sh, WritesBy(s.writes, t), data, priority, t, s.threads[t], n);
          } else {
            assert WritesBy(s.writes, t) + [] == WritesBy(s.writes, t);
          }
        case _ => assert s.writes + [] == s.writes;
      }
    }
  }

  // ---------- The acceptance of a call ----------

  /** The step `l` is one of a thread that enters the queue and finds room. */
  predicate Accepts(c: Config, s: System, l: Label) {
    l.Step? && l.thread in s.threads && s.threads[l.thread].SendEnqueue? && |s.sh.q| < c.max
  }

  function NewAcceptor(c: Config, s: System, l: Label): seq<nat> {
    if Accepts(c, s, l) then [l.thread] else []
  }

  /** The threads whose items were accepted along `ls`, in order. */
  function Acceptors(c: Config, s: System, ls: seq<Label>): seq<nat> {
    if ls == [] then []
    else
      var init, l := ls[..|ls| - 1], ls[|ls| - 1];
      Acceptors(c, s, init) + NewAcceptor(c, Run(c, s, init), l)
  }

  /** The accepted items are those of the threads `us`, in order: no thread twice, and each of them
      has returned true. */
  ghost predicate Attributed(s: System, us: seq<nat>) {
    && |us| == |AcceptedItems(s.log)| && NoRepeats(us)
    && forall i :: 0 <= i < |us| ==> us[i] in s.threads && s.threads[us[i]] == Position.Returned(true)
  }

  /** Thread `t`, sending `data` with `priority`, is one of `us` exactly if it has returned true from
      the queue, and the item there is its own. */
  ghost predicate Answered(s: System, us: seq<nat>, t: nat, data: seq<byte>, priority: int)
    requires |us| == |AcceptedItems(s.log)|
  {
    && t in s.threads
    && (t in us <==> priority >= 0 && s.threads[t] == Position.Returned(true))
    && forall i :: 0 <= i < |us| && us[i] == t ==>
         AcceptedItems(s.log)[i].data == data && AcceptedItems(s.log)[i].priority == priority
  }

  /** What a region accepts. */
  lemma AcceptedRegion(c: Config, s: System, l: Label)
    requires l.Step? && Enabled(s, l)
    ensures var p := s.threads[l.thread];
            var e := Act(c, s.sh, l.thread, p, l.n);
            && !p.Returned?
            && (Accepts(c, s, l) ==>
                  e.next == Position.Returned(true)
                  && e.logged == [Accepted(Item(p.priority, s.sh.counter + 1, p.data))])
            && (!Accepts(c, s, l) ==> e.logged == [] || (|e.logged| == 1 && e.logged[0].Popped?))
            && (p.SendEnqueue? && !Accepts(c, s, l) ==> e.next == Position.Returned(false))
  {
  }

  lemma AcceptedAppend(log: seq<Event>, more: seq<Event>)
    requires |more| <= 1
    ensures AcceptedItems(log + more) ==
            AcceptedItems(log) + if more != [] && more[0].Accepted? then [more[0].item] else []
  {
    if more == [] {
      assert log + more == log;
      assert AcceptedItems(log) + [] == AcceptedItems(log);
    } else {
      assert (log + more)[..|log|] == log;
    }
  }

  lemma AcceptedByStep(c: Config, s: System, l: Label)
    ensures AcceptedItems(Next(c, s, l).log) == AcceptedItems(s.log) +
            if Accepts(c, s, l)
            then [Item(s.threads[l.thread].priority, s.sh.counter + 1, s.threads[l.thread].data)] else []
  {
    assert AcceptedItems(s.log) + [] == AcceptedItems(s.log);
    if Enabled(s, l) {
      if l.Step? {
        AcceptedRegion(c, s, l);
        AcceptedAppend(s.log, Act(c, s.sh, l.thread, s.threads[l.thread], l.n).logged);
      } else {
        assert s.log + [] == s.log;
      }
    }
  }

  lemma AttributedKept(c: Config, s: System, us: seq<nat>, l: Label)
    requires Attributed(s, us)
    ensures Attributed(Next(c, s, l), us + NewAcceptor(c, s, l))
  {
    AcceptedByStep(c, s, l);
    if Enabled(s, l) && l.Step? {
      AcceptedRegion(c, s, l);
    }
  }

  lemma AnsweredKept(c: Config, s: System, us: seq<nat>, l: Label, t: nat, data: seq<byte>, priority: int)
    requires Attributed(s, us) && Answered(s, us, t, data, priority) && CallStands(c, s, t, data, priority)
    requires Attributed(Next(c, s, l), us + NewAcceptor(c, s, l))
    ensures Answered(Next(c, s, l), us + NewAcceptor(c, s, l), t, data, priority)
  {
    AcceptedByStep(c, s, l);
    if Enabled(s, l) && l.Step? {
      AcceptedRegion(c, s, l);
      if l.thread == t {
        OwnAnswer(c, s, l, WritesBy(s.writes, t), data, priority);
      }
    }
  }

  /** Only the queue's acceptance lets a send with a level of its own return true. */
  lemma OwnAnswer(c: Config, s: System, l: Label, own: seq<Write>, data: seq<byte>, priority: int)
    requires l.Step? && Enabled(s, l) && Stands(own, data, priority, LetsWrite(c, s.sh), s.threads[l.thread])
    ensures Accepts(c, s, l) ==>
              priority >= 0 && s.threads[l.thread].data == data && s.threads[l.thread].priority == priority
    ensures priority >= 0 ==>
              (Accepts(c, s, l) <==> Act(c, s.sh, l.thread, s.threads[l.thread], l.n).next == Position.Returned(true))
  {
  }

  // ---------- Every run ----------

  lemma {:induction false} EveryoneAttributed(c: Config, ls: seq<Label>)
    ensures Attributed(Run(c, STARTED, ls), Acceptors(c, STARTED, ls))
  {
    if ls != [] {
      var init := ls[..|ls| - 1];
      EveryoneAttributed(c, init);
      AttributedKept(c, Run(c, STARTED, init), Acceptors(c, STARTED, init), ls[|ls| - 1]);
    }
  }

  /** A thread that has not started has written nothing. */
  lemma {:induction false} WritersStarted(c: Config, ls: seq<Label>, t: nat)
    requires t !in Run(c, STARTED, ls).threads
    ensures WritesBy(Run(c, STARTED, ls).writes, t) == []
  {
    if ls != [] {
      var s, l := Run(c, STARTED, ls[..|ls| - 1]), ls[|ls| - 1];
      WritersStarted(c, ls[..|ls| - 1], t);
      if Enabled(s, l) {
        if l.Step? {
          WritesAreOwn(c, s.sh, l.thread, s.threads[l.thread], l.n);
          WritesByAppend(s.writes, Act(c, s.sh, l.thread, s.threads[l.thread], l.n).writes, t);
        } else {
          assert s.writes + [] == s.writes;
        }
      }
    }
  }

  /** What holds of thread `t`, sending `data` with `priority`, at the end of `ls`. */
  ghost predicate CallAt(c: Config, ls: seq<Label>, t: nat, data: seq<byte>, priority: int) {
    var s, us := Run(c, STARTED, ls), Acceptors(c, STARTED, ls);
    Attributed(s, us) && CallStands(c, s, t, data, priority) && Answered(s, us, t, data, priority)
  }

  lemma SendStarts(c: Config, before: seq<Label>, t: nat, data: seq<byte>, priority: int)
    requires t !in Run(c, STARTED, before).threads
    ensures CallAt(c, before + [Send(t, data, priority)], t, data, priority)
    ensures Run(c, STARTED, before + [Send(t, data, priority)]).threads[t] == SendEnter(data, priority)
    ensures Run(c, STARTED, before + [Send(t, data, priority)]).log == Run(c, STARTED, before).log
  {
    var ls := before + [Send(t, data, priority)];
    assert ls[..|before|] == before;
    var s := Run(c, STARTED, before);
    WritersStarted(c, before, t);
    assert s.writes + [] == s.writes && s.log + [] == s.log;
    EveryoneAttributed(c, before);
    EveryoneAttributed(c, ls);
  }

  lemma CallAtKept(c: Config, ls: seq<Label>, l: Label, t: nat, data: seq<byte>, priority: int)
    requires CallAt(c, ls, t, data, priority)
    ensures CallAt(c, ls + [l], t, data, priority)
  {
    assert (ls + [l])[..|ls|] == ls;
    var s, us := Run(c, STARTED, ls), Acceptors(c, STARTED, ls);
    AttributedKept(c, s, us, l);
    CallKept(c, s, l, t, data, priority);
    AnsweredKept(c, s, us, l, t, data, priority);
  }

  lemma {:induction false} CallGoesOn(
      c: Config, begun: seq<Label>, t: nat, data: seq<byte>, priority: int, after: seq<Label>)
    requires CallAt(c, begun, t, data, priority)
    ensures CallAt(c, begun + after, t, data, priority)
  {
    hide CallAt;
    if after == [] {
      assert begun + after == begun;
    } else {
      var init, l := after[..|after| - 1], after[|after| - 1];
      CallGoesOn(c, begun, t, data, priority, init);
      assert begun + after == begun + init + [l];
      CallAtKept(c, begun + init, l, t, data, priority);
    }
  }

  /** What a send has written by now: a critical one calls write(2) at most once, with its own data,
      and has returned true exactly if the call took; it returns without a call only if the guard
      is closed, and then for good. Any other send never writes. */
  predicate WritesSettle(own: seq<Write>, data: seq<byte>, priority: int, open: bool, p: Position) {
    && |own| <= 1
    && (priority >= 0 ==> own == [])
    && (own != [] ==> own[0].data == data)
    && (p.Returned? && priority < 0 ==> (p.result <==> own != [] && own[0].n >= 0))
    && (p.Returned? && priority < 0 && open ==> |own| == 1)
  }

  lemma StandsSettles(own: seq<Write>, data: seq<byte>, priority: int, open: bool, p: Position)
    requires Stands(own, data, priority, open, p)
    ensures WritesSettle(own, data, priority, open, p)
  {
  }

  // ---------- Why a send is refused ----------

  /** The queue was full at some moment since its first `since` events. */
  ghost predicate WasFull(c: Config, log: seq<Event>, since: nat) {
    exists i: nat :: since <= i <= |log| && |QueueAt(log, i)| >= c.max
  }

  lemma StillWasFull(c: Config, log: seq<Event>, more: seq<Event>, since: nat)
    requires WasFull(c, log, since) && log <= more
    ensures WasFull(c, more, since)
  {
    var i: nat :| since <= i <= |log| && |QueueAt(log, i)| >= c.max;
    SamePrefix(log, more, i);
  }

  /** A send with a level of its own has returned false only if the queue no longer runs, or was
      full at some moment since the send began. */
  ghost predicate RefusedForCause(c: Config, s: System, since: nat, t: nat, priority: int) {
    t in s.threads && priority >= 0 && s.threads[t] == Position.Returned(false) ==>
      !s.sh.running || WasFull(c, s.log, since)
  }

  /** A region that refuses a send, and the running flag under any region. */
  lemma RefusingRegion(c: Config, sh: Shared, t: nat, p: Position, n: int)
    ensures var e := Act(c, sh, t, p, n);
            && (!sh.running ==> !e.sh.running)
            && (e.next == Position.Returned(false) && p.SendEnter? ==> !sh.running)
            && (e.next == Position.Returned(false) && p.SendEnqueue? ==> |sh.q| >= c.max && e.logged == [])
  {
  }

  lemma RefusedKept(c: Config, s: System, l: Label, since: nat, t: nat, data: seq<byte>, priority: int)
    requires QueueInv(c, s) && since <= |s.log|
    requires CallStands(c, s, t, data, priority) && RefusedForCause(c, s, since, t, priority)
    ensures RefusedForCause(c, Next(c, s, l), since, t, priority)
  {
    var s' := Next(c, s, l);
    if Enabled(s, l) && l.Step? {
      RefusingRegion(c, s.sh, l.thread, s.threads[l.thread], l.n);
    }
    if priority >= 0 && s'.threads[t] == Position.Returned(false) && s'.sh.running {
      assert WasFull(c, s.log, since);
      StillWasFull(c, s.log, s'.log, since);
    }
  }

  lemma LogOnlyGrows(c: Config, s: System, l: Label)
    ensures s.log <= Next(c, s, l).log
  {
  }

  lemma {:induction false} RefusedAlong(
      c: Config, begun: seq<Label>, t: nat, data: seq<byte>, priority: int, after: seq<Label>)
    requires CallAt(c, begun, t, data, priority)
    requires RefusedForCause(c, Run(c, STARTED, begun), |Run(c, STARTED, begun).log|, t, priority)
    ensures var since, s := |Run(c, STARTED, begun).log|, Run(c, STARTED, begun + after);
            since <= |s.log| && RefusedForCause(c, s, since, t, priority)
  {
    hide CallAt;
    if after == [] {
      assert begun + after == begun;
    } else {
      var init, l := after[..|after| - 1], after[|after| - 1];
      var ls, since := begun + init, |Run(c, STARTED, begun).log|;
      assert begun + after == ls + [l];
      RefusedAlong(c, begun, t, data, priority, init);
      CallGoesOn(c, begun, t, data, priority, init);
      RefusedNext(c, ls, l, since, t, data, priority);
    }
  }

  lemma RefusedNext(c: Config, ls: seq<Label>, l: Label, since: nat, t: nat, data: seq<byte>, priority: int)
    requires CallAt(c, ls, t, data, priority) && since <= |Run(c, STARTED, ls).log|
    requires RefusedForCause(c, Run(c, STARTED, ls), since, t, priority)
    ensures var s := Run(c, STARTED, ls + [l]); since <= |s.log| && RefusedForCause(c, s, since, t, priority)
  {
    assert (ls + [l])[..|ls|] == ls;
    Reachable(c, ls);
    LogOnlyGrows(c, Run(c, STARTED, ls), l);
    RefusedKept(c, Run(c, STARTED, ls), l, since, t, data, priority);
  }

  /** What the result of a send says, in every run: the accepted items are, in order, those of a
      sequence of distinct threads that have all returned true; a send with a level of its own has
      returned true if and only if its thread is one of these, and the item there has its data and
      priority, and has returned false only if the queue no longer runs or was full meanwhile; a
      critical send is none of them, has returned true if and only if its one write took, and has
      returned without a write only if the guard is closed. */
  lemma SendResult(c: Config, before: seq<Label>, t: nat, data: seq<byte>, priority: int, after: seq<Label>)
    requires t !in Run(c, STARTED, before).threads
    ensures var ls := before + [Send(t, data, priority)] + after;
            var s, us := Run(c, STARTED, ls), Acceptors(c, STARTED, ls);
            && Attributed(s, us) && Answered(s, us, t, data, priority)
            && WritesSettle(WritesBy(s.writes, t), data, priority, LetsWrite(c, s.sh), s.threads[t])
            && RefusedForCause(c, s, |Run(c, STARTED, before).log|, t, priority)
  {
    var begun := before + [Send(t, data, priority)];
    SendStarts(c, before, t, data, priority);
    CallGoesOn(c, begun, t, data, priority, after);
    var s := Run(c, STARTED, begun + after);
    StandsSettles(WritesBy(s.writes, t), data, priority, LetsWrite(c, s.sh), s.threads[t]);
    RefusedAlong(c, begun, t, data, priority, after);
  }

  // ---------- Sends return ----------

  /** How many regions a send has before it at most. */
  function SendRank(p: Position): nat {
    match p
    case SendEnter(_, _) => 5
    case WriteGuard(_, _) => 4
    case WriteCall(_, _) => 3
    case WriteAccount(_, _, _) => 2
    case WriteDisconnect(_, _) => 1
    case SendEnqueue(_, _) => 1
    case _ => 0
  }

  /** How many steps thread `t` takes along `ls`. */
  function StepsOf(c: Config, s: System, ls: seq<Label>, t: nat): nat {
    if ls == [] then 0
    else
      var init, l := ls[..|ls| - 1], ls[|ls| - 1];
      StepsOf(c, s, init, t) + if l.Step? && l.thread == t && Enabled(Run(c, s, init), l) then 1 else 0
  }

  lemma SendRankFalls(c: Config, sh: Shared, own: seq<Write>, data: seq<byte>, priority: int, open: bool,
      t: nat, p: Position, n: int)
    requires Stands(own, data, priority, open, p) && !p.Returned?
    ensures SendRank(Act(c, sh, t, p, n).next) < SendRank(p)
  {
  }

  lemma SendMovesAlone(c: Config, s: System, l: Label, t: nat, data: seq<byte>, priority: int)
    requires CallStands(c, s, t, data, priority)
    ensures t in Next(c, s, l).threads
    ensures SendRank(Next(c, s, l).threads[t]) +
            (if l.Step? && l.thread == t && Enabled(s, l) then 1 else 0) <= SendRank(s.threads[t])
  {
    if Enabled(s, l) && l.Step? && l.thread == t {
      SendRankFalls(c, s.sh, WritesBy(s.writes, t), data, priority, LetsWrite(c, s.sh), t, s.threads[t], l.n);
    }
  }

  lemma {:induction false} SendStepsBounded(
      c: Config, s: System, ls: seq<Label>, t: nat, data: seq<byte>, priority: int)
    requires CallStands(c, s, t, data, priority)
    ensures CallStands(c, Run(c, s, ls), t, data, priority)
    ensures StepsOf(c, s, ls, t) + SendRank(Run(c, s, ls).threads[t]) <= SendRank(s.threads[t])
  {
    if ls != [] {
      var init, l := ls[..|ls| - 1], ls[|ls| - 1];
      SendStepsBounded(c, s, init, t, data, priority);
      CallKept(c, Run(c, s, init), l, t, data, priority);
      SendMovesAlone(c, Run(c, s, init), l, t, data, priority);
    }
  }

  /** Every send returns: it takes at most five steps however the other threads interleave, and it
      can always take its next one until it has returned. */
  lemma SendReturns(c: Config, before: seq<Label>, t: nat, data: seq<byte>, priority: int, after: seq<Label>)
    requires t !in Run(c, STARTED, before).threads
    ensures var begun := Run(c, STARTED, before + [Send(t, data, priority)]);
            var s := Run(c, begun, after);
            && t in s.threads
            && StepsOf(c, begun, after, t) + SendRank(s.threads[t]) <= 5
            && (Enabled(s, Step(t, 0)) <==> !s.threads[t].Returned?)
  {
    SendStarts(c, before, t, data, priority);
    SendStepsBounded(c, Run(c, STARTED, before + [Send(t, data, priority)]), after, t, data, priority);
  }
}
