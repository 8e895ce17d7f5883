/** What the error accounting counts: the results of the calls of write(2), each once, in every run
    of the queue's threads. */
module WriteOutcomes {
  import opened SerialQueues
  import opened QueueProtocol
  import opened QueueCalls

  /** The step is one that takes the error lock after a write. */
  predicate TakesErrorLock(s: System, l: Label) {
    l.Step? && l.thread in s.threads && s.threads[l.thread].WriteAccount?
  }

  function NewAccounter(s: System, l: Label): seq<nat> {
    if TakesErrorLock(s, l) then [l.thread] else []
  }

  /** The threads that took the error lock along `ls`, in order. */
  function Accounters(c: Config, s: System, ls: seq<Label>): seq<nat> {
    if ls == [] then []
    else
      var init := ls[..|ls| - 1];
      Accounters(c, s, init) + NewAccounter(Run(c, s, init), ls[|ls| - 1])
  }

  /** Those of the outcomes that thread `t` has brought in. */
  function OutcomesOf(outcomes: seq<bool>, us: seq<nat>, t: nat): seq<bool>
    requires |outcomes| == |us|
  {
    if us == [] then []
    else
      var n := |us| - 1;
      OutcomesOf(outcomes[..n], us[..n], t) + if us[n] == t then [outcomes[n]] else []
  }

  /** Which of the writes took. */
  function Results(writes: seq<Write>): seq<bool> {
    if writes == [] then []
    else Results(writes[..|writes| - 1]) + [writes[|writes| - 1].n >= 0]
  }

  /** The outcome that a thread has written for and not yet brought in. */
  function Owed(s: System, t: nat): seq<bool> {
    if t in s.threads && s.threads[t].WriteAccount? then [s.threads[t].ok] else []
  }

  /** The outcomes are brought in by `us`, and those of each thread are the results of its own writes,
      in the order of these, up to one it still owes. */
  ghost predicate AccountedFor(s: System, us: seq<nat>, t: nat)
    requires |us| == |s.outcomes|
  {
    Results(WritesBy(s.writes, t)) == OutcomesOf(s.outcomes, us, t) + Owed(s, t)
  }

  ghost predicate Accounted(s: System, us: seq<nat>) {
    |us| == |s.outcomes| && forall t: nat :: AccountedFor(s, us, t)
  }

  lemma OutcomesAppend(outcomes: seq<bool>, us: seq<nat>, ok: bool, u: nat, t: nat)
    requires |outcomes| == |us|
    ensures OutcomesOf(outcomes + [ok], us + [u], t) == OutcomesOf(outcomes, us, t) + if u == t then [ok] else []
  {
    assert (outcomes + [ok])[..|us|] == outcomes && (us + [u])[..|us|] == us;
  }

  lemma ResultsAppend(writes: seq<Write>, w: Write)
    ensures Results(writes + [w]) == Results(writes) + [w.n >= 0]
  {
    assert (writes + [w])[..|writes|] == writes;
  }

  /** What a region entered at `p` does to the writes and the outcomes: a call of write(2) is followed
      by the accounting of its result. */
  predicate WritingEffect(t: nat, p: Position, e: Effect) {
    if p.WriteCall? then
      && |e.writes| == 1 && e.writes[0].thread == t && e.outcomes == []
      && e.next.WriteAccount? && e.next.ok == (e.writes[0].n >= 0)
    else
      && e.writes == [] && !e.next.WriteAccount?
      && e.outcomes == if p.WriteAccount? then [p.ok] else []
  }

  lemma WritingRegion(c: Config, sh: Shared, t: nat, p: Position, n: int)
    requires !p.Returned? && !p.Stopped? && !p.WorkerEnded?
    ensures WritingEffect(t, p, Act(c, sh, t, p, n))
  {
  }

  lemma WroteNow(s: System, us: seq<nat>, u: nat, e: Effect, t: nat)
    requires |us| == |s.outcomes| && AccountedFor(s, us, t) && u in s.threads && s.threads[u].WriteCall?
    requires WritingEffect(u, s.threads[u], e)
    ensures |us| == |Apply(s, u, e).outcomes| && AccountedFor(Apply(s, u, e), us, t)
  {
    var own := WritesBy(s.writes, t);
    WritesByAppend(s.writes, e.writes, t);
    assert s.outcomes + [] == s.outcomes && own + [] == own;
    assert OutcomesOf(s.outcomes, us, t) + [] == OutcomesOf(s.outcomes, us, t);
    assert e.writes == [e.writes[0]];
    ResultsAppend(own, e.writes[0]);
  }

  lemma BroughtIn(s: System, us: seq<nat>, u: nat, e: Effect, t: nat)
    requires |us| == |s.outcomes| && AccountedFor(s, us, t) && u in s.threads && s.threads[u].WriteAccount?
    requires WritingEffect(u, s.threads[u], e)
    ensures |us + [u]| == |Apply(s, u, e).outcomes| && AccountedFor(Apply(s, u, e), us + [u], t)
  {
    var more := OutcomesOf(s.outcomes, us, t) + if u == t then [s.threads[u].ok] else [];
    assert s.writes + [] == s.writes && more + [] == more;
    OutcomesAppend(s.outcomes, us, s.threads[u].ok, u, t);
  }

  lemma NothingNew(s: System, us: seq<nat>, u: nat, e: Effect, t: nat)
    requires |us| == |s.outcomes| && AccountedFor(s, us, t) && u in s.threads
    requires !s.threads[u].WriteAccount? && !s.threads[u].WriteCall? && WritingEffect(u, s.threads[u], e)
    ensures |us| == |Apply(s, u, e).outcomes| && AccountedFor(Apply(s, u, e), us, t)
  {
    assert s.outcomes + [] == s.outcomes && s.writes + [] == s.writes;
  }

  lemma AccountedApply(s: System, us: seq<nat>, u: nat, e: Effect, t: nat)
    requires |us| == |s.outcomes| && AccountedFor(s, us, t) && u in s.threads && WritingEffect(u, s.threads[u], e)
    ensures var us' := us + if s.threads[u].WriteAccount? then [u] else [];
            |us'| == |Apply(s, u, e).outcomes| && AccountedFor(Apply(s, u, e), us', t)
  {
    hide AccountedFor, WritingEffect;
    assert us + [] == us;
    if s.threads[u].WriteAccount? {
      BroughtIn(s, us, u, e, t);
    } else if s.threads[u].WriteCall? {
      WroteNow(s, us, u, e, t);
    } else {
      NothingNew(s, us, u, e, t);
    }
  }

  lemma AccountedRegion(c: Config, s: System, us: seq<nat>, u: nat, n: int, t: nat)
    requires |us| == |s.outcomes| && AccountedFor(s, us, t) && Enabled(s, Step(u, n))
    ensures var s' := Next(c, s, Step(u, n));
            var us' := us + NewAccounter(s, Step(u, n));
            |us'| == |s'.outcomes| && AccountedFor(s', us', t)
  {
    hide AccountedFor, Act;
    WritingRegion(c, s.sh, u, s.threads[u], n);
    AccountedApply(s, us, u, Act(c, s.sh, u, s.threads[u], n), t);
  }

  lemma AccountedCall(c: Config, s: System, us: seq<nat>, l: Label, t: nat)
    requires |us| == |s.outcomes| && AccountedFor(s, us, t) && Enabled(s, l) && !l.Step?
    ensures |us| == |Next(c, s, l).outcomes| && AccountedFor(Next(c, s, l), us, t)
  {
    hide Next;
    CallAdds(c, s, l, if l.Stop? then StopEnter else SendEnter(l.data, l.priority));
  }

  lemma AccountedStep(c: Config, s: System, us: seq<nat>, l: Label, t: nat)
    requires |us| == |s.outcomes| && AccountedFor(s, us, t)
    ensures var us' := us + NewAccounter(s, l);
            |us'| == |Next(c, s, l).outcomes| && AccountedFor(Next(c, s, l), us', t)
  {
    hide AccountedFor, Act;
    assert us + [] == us;
    if Enabled(s, l) {
      if l.Step? {
        AccountedRegion(c, s, us, l.thread, l.n, t);
      } else {
        AccountedCall(c, s, us, l, t);
      }
    }
  }

  lemma AccountedKept(c: Config, s: System, us: seq<nat>, l: Label)
    requires Accounted(s, us)
    ensures Accounted(Next(c, s, l), us + NewAccounter(s, l))
  {
    hide AccountedFor, Next;
    assert AccountedFor(s, us, 0);
    AccountedStep(c, s, us, l, 0);
    forall t: nat
      ensures AccountedFor(Next(c, s, l), us + NewAccounter(s, l), t)
    {
      assert AccountedFor(s, us, t);
      AccountedStep(c, s, us, l, t);
    }
  }

  /** Every write is accounted for, in every run: each thread brings in the results of its own
      writes, once each and in their order, and owes at most the last. */
  lemma {:induction false} EveryWriteAccounted(c: Config, ls: seq<Label>)
    ensures Accounted(Run(c, STARTED, ls), Accounters(c, STARTED, ls))
  {
    if ls == [] {
      forall t: nat
        ensures AccountedFor(STARTED, [], t)
      {
        assert Results(WritesBy([], t)) == [];
      }
    } else {
      var init := ls[..|ls| - 1];
      EveryWriteAccounted(c, init);
      AccountedKept(c, Run(c, STARTED, init), Accounters(c, STARTED, init), ls[|ls| - 1]);
    }
  }

  // ---------- All threads together ----------

  /** The threads that owe the outcome `ok`. */
  ghost function Owing(s: System, ok: bool): set<nat> {
    set t | t in s.threads && s.threads[t].WriteAccount? && s.threads[t].ok == ok
  }

  /** As often as the outcome `ok` has been brought in or is owed, as often a write came out so. */
  ghost predicate Balanced(s: System, ok: bool) {
    multiset(s.outcomes)[ok] + |Owing(s, ok)| == multiset(Results(s.writes))[ok]
  }

  lemma BalancedApply(s: System, u: nat, e: Effect, ok: bool)
    requires Balanced(s, ok) && u in s.threads && WritingEffect(u, s.threads[u], e)
    ensures Balanced(Apply(s, u, e), ok)
  {
    var s' := Apply(s, u, e);
    OwingApply(s, u, e, ok);
    assert s.outcomes + [] == s.outcomes && s.writes + [] == s.writes;
    if s.threads[u].WriteCall? {
      assert e.writes == [e.writes[0]];
      ResultsAppend(s.writes, e.writes[0]);
    }
  }

  lemma OwedByOne(s: System, u: nat, ok: bool)
    ensures u in Owing(s, ok) <==> Owed(s, u) == [ok]
  {
  }

  lemma OneElement(s: set<nat>, u: nat)
    ensures |s| == |s - {u}| + if u in s then 1 else 0
  {
    if u in s {
      assert s == (s - {u}) + {u};
    } else {
      assert s == s - {u};
    }
  }

  lemma OwingApply(s: System, u: nat, e: Effect, ok: bool)
    requires u in s.threads
    ensures var s' := Apply(s, u, e);
            && |Owing(s', ok)| == |Owing(s, ok) - {u}| + (if Owed(s', u) == [ok] then 1 else 0)
            && |Owing(s, ok)| == |Owing(s, ok) - {u}| + (if Owed(s, u) == [ok] then 1 else 0)
  {
    hide Owed;
    var s' := Apply(s, u, e);
    assert Owing(s', ok) - {u} == Owing(s, ok) - {u};
    OneElement(Owing(s, ok), u);
    OneElement(Owing(s', ok), u);
    OwedByOne(s, u, ok);
    OwedByOne(s', u, ok);
  }

  lemma BalancedRegion(c: Config, s: System, u: nat, n: int, ok: bool)
    requires Balanced(s, ok) && Enabled(s, Step(u, n))
    ensures Balanced(Next(c, s, Step(u, n)), ok)
  {
    hide Balanced, Act;
    WritingRegion(c, s.sh, u, s.threads[u], n);
    BalancedApply(s, u, Act(c, s.sh, u, s.threads[u], n), ok);
  }

  lemma BalancedCall(c: Config, s: System, l: Label, ok: bool)
    requires Balanced(s, ok) && Enabled(s, l) && !l.Step?
    ensures Balanced(Next(c, s, l), ok)
  {
    hide Next, Act;
    var p := if l.Stop? then StopEnter else SendEnter(l.data, l.priority);
    CallAdds(c, s, l, p);
    assert Owing(s.(threads := s.threads[l.thread := p]), ok) == Owing(s, ok);
  }

  /** All together, the outcomes are the results of the writes, up to those still owed. */
  lemma {:induction false} OutcomesAreResults(c: Config, ls: seq<Label>, ok: bool)
    ensures Balanced(Run(c, STARTED, ls), ok)
  {
    if ls == [] {
      assert Owing(STARTED, ok) == {};
    } else {
      var s, l := Run(c, STARTED, ls[..|ls| - 1]), ls[|ls| - 1];
      OutcomesAreResults(c, ls[..|ls| - 1], ok);
      if Enabled(s, l) {
        if l.Step? {
          BalancedRegion(c, s, l.thread, l.n, ok);
        } else {
          BalancedCall(c, s, l, ok);
        }
      }
    }
  }

  /** A thread about to account for a write does so with the result of its latest one. */
  lemma LatestResult(c: Config, ls: seq<Label>, t: nat)
    requires var s := Run(c, STARTED, ls); t in s.threads && s.threads[t].WriteAccount?
    ensures var s := Run(c, STARTED, ls);
            var own := WritesBy(s.writes, t);
            own != [] && s.threads[t].ok == (own[|own| - 1].n >= 0)
  {
    var s, us := Run(c, STARTED, ls), Accounters(c, STARTED, ls);
    EveryWriteAccounted(c, ls);
    assert AccountedFor(s, us, t);
    ResultsLast(WritesBy(s.writes, t), OutcomesOf(s.outcomes, us, t), s.threads[t].ok);
  }

  lemma ResultsLast(writes: seq<Write>, outcomes: seq<bool>, ok: bool)
    requires Results(writes) == outcomes + [ok]
    ensures writes != [] && ok == (writes[|writes| - 1].n >= 0)
  {
    assert Results(writes)[|Results(writes)| - 1] == ok;
  }
}
