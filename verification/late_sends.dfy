/** What still becomes of sends once the queue has been stopped. */
module LateSends {
  import opened Base
  import opened QueueOrder
  import opened QueueLog
  import opened SerialQueues
  import opened QueueProtocol
  import opened QueueCalls

  /** The threads that have passed the running check and not yet entered the queue. */
  ghost function AtEnqueue(s: System): set<nat> {
    set t | t in s.threads && s.threads[t].SendEnqueue?
  }

  /** The threads that take a step along `ls`. */
  ghost function Stepped(ls: seq<Label>): set<nat> {
    if ls == [] then {}
    else Stepped(ls[..|ls| - 1]) + if ls[|ls| - 1].Step? then {ls[|ls| - 1].thread} else {}
  }

  /** A region on a stopped queue: the queue stays stopped, nothing is popped, no thread comes to
      the queue any more, and only a thread that stands there is accepted, exactly if there is
      room. */
  lemma StoppedRegion(c: Config, sh: Shared, t: nat, p: Position, n: int)
    requires !sh.running
    ensures var e := Act(c, sh, t, p, n);
            && !e.sh.running && !e.next.SendEnqueue?
            && (e.logged != [] <==> p.SendEnqueue? && |sh.q| < c.max)
            && (e.logged != [] ==> e.logged == [Accepted(Item(p.priority, sh.counter + 1, p.data))])
            && (p.SendEnqueue? ==> e.next == Position.Returned(|sh.q| < c.max))
  {
  }

  /** Each thread of `us` was accepted with what it stood at the queue with in `s`, and these are
      the only events since. */
  ghost predicate AcceptedSince(s: System, log: seq<Event>, us: seq<nat>) {
    && |log| == |s.log| + |us| && s.log == log[..|s.log|]
    && forall k :: |s.log| <= k < |log| ==> FromQueueEntry(s, us[k - |s.log|], log[k])
  }

  ghost predicate FromQueueEntry(s: System, u: nat, e: Event) {
    && u in AtEnqueue(s) && e.Accepted?
    && e.item.data == s.threads[u].data && e.item.priority == s.threads[u].priority
  }

  /** What holds at every moment after the stop. */
  ghost predicate LateInv(s: System, t: System, us: seq<nat>, stepped: set<nat>) {
    && !t.sh.running
    && AtEnqueue(t) == AtEnqueue(s) - stepped
    && (forall u :: u in AtEnqueue(t) ==> t.threads[u] == s.threads[u])
    && AcceptedSince(s, t.log, us) && NoRepeats(us)
    && (forall i :: 0 <= i < |us| ==> us[i] in stepped)
    && (forall u :: u in s.threads ==> u in t.threads)
    && (forall u :: u in t.threads && u !in s.threads ==> LatePosition(t.threads[u]))
  }

  /** Where a thread can stand that began after the stop: a send can only return false. */
  predicate LatePosition(p: Position) {
    p.SendEnter? || p.StopEnter? || p == Position.Returned(false)
  }

  lemma LateRegion(c: Config, s: System, t: System, us: seq<nat>, stepped: set<nat>, u: nat, n: int)
    requires LateInv(s, t, us, stepped) && Enabled(t, Step(u, n))
    ensures var e := Act(c, t.sh, u, t.threads[u], n);
            LateInv(s, Apply(t, u, e), us + if Accepts(c, t, Step(u, n)) then [u] else [], stepped + {u})
  {
    var p := t.threads[u];
    var e := Act(c, t.sh, u, p, n);
    var t' := Apply(t, u, e);
    StoppedRegion(c, t.sh, u, p, n);
    LateQueueEntries(s, t, t', stepped, u);
    LateAccepted(c, s, t, us, u, e);
    if u !in s.threads {
      LateThread(c, t.sh, u, p, n);
    }
  }

  /** The thread that moves is no longer at the queue, and the others stand where they stood. */
  lemma LateQueueEntries(s: System, t: System, t': System, stepped: set<nat>, u: nat)
    requires AtEnqueue(t) == AtEnqueue(s) - stepped
    requires u in t.threads && u in t'.threads && !t'.threads[u].SendEnqueue?
    requires t'.threads == t.threads[u := t'.threads[u]]
    ensures AtEnqueue(t') == AtEnqueue(s) - (stepped + {u})
  {
    assert AtEnqueue(t') == AtEnqueue(t) - {u};
  }

  lemma LateAccepted(c: Config, s: System, t: System, us: seq<nat>, u: nat, e: Effect)
    requires AcceptedSince(s, t.log, us)
    requires u in t.threads && (t.threads[u].SendEnqueue? ==> u in AtEnqueue(s) && t.threads[u] == s.threads[u])
    requires e.logged == [] || (t.threads[u].SendEnqueue? && e.logged ==
               [Accepted(Item(t.threads[u].priority, t.sh.counter + 1, t.threads[u].data))])
    ensures AcceptedSince(s, t.log + e.logged, us + if e.logged != [] then [u] else [])
  {
    assert (t.log + e.logged)[..|t.log|] == t.log;
    assert forall k :: 0 <= k < |t.log| ==> (t.log + e.logged)[k] == t.log[k];
  }

  lemma LateThread(c: Config, sh: Shared, t: nat, p: Position, n: int)
    requires !sh.running && LatePosition(p)
    ensures LatePosition(Act(c, sh, t, p, n).next)
  {
  }

  lemma LateCall(s: System, t: System, us: seq<nat>, stepped: set<nat>, u: nat, p: Position)
    requires LateInv(s, t, us, stepped) && u !in t.threads && (p.SendEnter? || p.StopEnter?)
    ensures LateInv(s, t.(threads := t.threads[u := p]), us, stepped)
  {
    assert AtEnqueue(t.(threads := t.threads[u := p])) == AtEnqueue(t);
  }

  /** A step that is not enabled is none of a thread that stands at the queue. */
  lemma LateIdle(s: System, t: System, us: seq<nat>, stepped: set<nat>, l: Label)
    requires LateInv(s, t, us, stepped) && !Enabled(t, l) && l.Step?
    ensures LateInv(s, t, us, stepped + {l.thread})
  {
    assert l.thread !in AtEnqueue(t);
    assert AtEnqueue(t) == AtEnqueue(s) - (stepped + {l.thread});
  }

  lemma LateStep(c: Config, s: System, t: System, us: seq<nat>, stepped: set<nat>, l: Label)
    requires LateInv(s, t, us, stepped)
    ensures LateInv(s, Next(c, t, l), us + (if Accepts(c, t, l) then [l.thread] else []),
                    stepped + if l.Step? then {l.thread} else {})
  {
    assert us + [] == us && stepped + {} == stepped;
    if l.Step? {
      if Enabled(t, l) {
        LateRegion(c, s, t, us, stepped, l.thread, l.n);
      } else {
        LateIdle(s, t, us, stepped, l);
      }
    } else if Enabled(t, l) {
      var p := if l.Stop? then StopEnter else SendEnter(l.data, l.priority);
      LateCall(s, t, us, stepped, l.thread, p);
      CallAdds(c, t, l, p);
    }
  }

  /** Exactly which sends are accepted after a stop, over every run from any state in which the
      queue is stopped: the threads still at the queue are those that stood there and have not
      stepped since; the events since are the acceptances of the threads that stepped from there
      and found room, each once and with what it stood there with; and a send that begins after
      the stop can only return false. */
  lemma {:induction false} LateSends(c: Config, s: System, ls: seq<Label>)
    requires !s.sh.running
    ensures LateInv(s, Run(c, s, ls), Acceptors(c, s, ls), Stepped(ls))
  {
    if ls == [] {
      assert AtEnqueue(s) == AtEnqueue(s) - {};
    } else {
      var init := ls[..|ls| - 1];
      LateSends(c, s, init);
      LateStep(c, s, Run(c, s, init), Acceptors(c, s, init), Stepped(init), ls[|ls| - 1]);
    }
  }

  /** And each thread that still stands at the queue is answered at its next step, with true and an
      acceptance exactly if there is room then. */
  lemma LateAnswer(c: Config, s: System, ls: seq<Label>, u: nat, n: int)
    requires !s.sh.running && u in AtEnqueue(s) - Stepped(ls)
    ensures var t := Run(c, s, ls);
            var room := |t.sh.q| < c.max;
            && u in t.threads && t.threads[u] == s.threads[u]
            && Next(c, t, Step(u, n)).threads[u] == Position.Returned(room)
            && (|Next(c, t, Step(u, n)).log| > |t.log| <==> room)
            && Acceptors(c, s, ls + [Step(u, n)]) == Acceptors(c, s, ls) + if room then [u] else []
  {
    LateSends(c, s, ls);
    var t := Run(c, s, ls);
    assert u in AtEnqueue(t);
    StoppedRegion(c, t.sh, u, t.threads[u], n);
    assert (ls + [Step(u, n)])[..|ls|] == ls;
  }
}
