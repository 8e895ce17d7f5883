/** Exactly which spectra are shown: those of the reader's sends whose write took. */
module SpectrumSends {
  import opened Base
  import opened QueueCalls
  import opened Framing
  import opened CavaReaders
  import opened Wire
  import opened SpectrumPath

  /** A send the reader owes for one of its turns: the thread of the call and the frame. */
  datatype Due = Due(thread: nat, frame: Sent)

  /** A turn that hands out a frame and does not skip it owes a send of the newest frame. */
  ghost function NewDue(f: nat, s: Path, m: Move): seq<Due>
    requires f > 0
  {
    if m.Turn? && Allowed(f, s, m) && m.frame.Some? && !m.skip
    then [Due(m.thread, Sent(|Flatten(s.chunks + [m.chunk])| / f - 1, m.frame.value))] else []
  }

  /** The sends owed for the turns of a run, in order. */
  ghost function Owed(c: QP.Config, f: nat, priority: int, ms: seq<Move>): seq<Due>
    requires f > 0
  {
    if ms == [] then []
    else
      var init := ms[..|ms| - 1];
      Owed(c, f, priority, init) + NewDue(f, Run(c, f, priority, init), ms[|ms| - 1])
  }

  ghost predicate Took(writes: seq<QP.Write>, t: nat) {
    exists w :: w in writes && w.thread == t && w.n >= 0
  }

  /** The frames of those sends whose write took. */
  ghost function Taken(dues: seq<Due>, writes: seq<QP.Write>): seq<Sent> {
    if dues == [] then []
    else
      var last := dues[|dues| - 1];
      Taken(dues[..|dues| - 1], writes) + if Took(writes, last.thread) then [last.frame] else []
  }

  lemma TakenAppend(dues: seq<Due>, d: Due, writes: seq<QP.Write>)
    ensures Taken(dues + [d], writes) == Taken(dues, writes) + if Took(writes, d.thread) then [d.frame] else []
  {
    assert (dues + [d])[..|dues|] == dues;
  }

  lemma {:induction false} TakenIgnores(dues: seq<Due>, writes: seq<QP.Write>, w: QP.Write)
    requires forall d :: d in dues ==> d.thread != w.thread
    ensures Taken(dues, writes + [w]) == Taken(dues, writes)
  {
    if dues != [] {
      var last := dues[|dues| - 1];
      assert last in dues;
      TakenIgnores(dues[..|dues| - 1], writes, w);
      TookIgnores(writes, w, last.thread);
    }
  }

  lemma TookIgnores(writes: seq<QP.Write>, w: QP.Write, t: nat)
    requires w.thread != t
    ensures Took(writes + [w], t) <==> Took(writes, t)
  {
    if Took(writes, t) {
      var x :| x in writes && x.thread == t && x.n >= 0;
      assert x in writes + [w];
    }
  }

  /** Whether a thread's write took, by its own writes. */
  lemma {:induction false} TookOwn(writes: seq<QP.Write>, t: nat)
    ensures WritesBy(writes, t) == [] ==> !Took(writes, t)
    ensures |WritesBy(writes, t)| == 1 ==> (Took(writes, t) <==> WritesBy(writes, t)[0].n >= 0)
  {
    if writes != [] {
      var init, last := writes[..|writes| - 1], writes[|writes| - 1];
      assert writes == init + [last];
      TookOwn(init, t);
      if last.thread != t {
        TookIgnores(init, last, t);
      } else {
        assert last.n >= 0 ==> Took(writes, t);
        assert !Took(init, t) && Took(writes, t) ==> last.n >= 0;
      }
    }
  }

  // ---------- The invariant ----------

  /** The sends made are the sends owed, in order, and the last is the current one. */
  ghost predicate SendsMade(s: Path, dues: seq<Due>) {
    && (forall d :: d in dues ==> d.thread in s.sent && s.sent[d.thread] == d.frame && d.thread in s.sys.threads)
    && (forall t :: t in s.sent ==> exists d :: d in dues && d.thread == t)
    && (forall i, j :: 0 <= i < j < |dues| ==> dues[i].thread != dues[j].thread)
    && s.current == if dues == [] then None else Some(dues[|dues| - 1].thread)
  }

  ghost predicate ShownAreTaken(s: Path, dues: seq<Due>) {
    Shown(s.sys.writes, s.sent) == Taken(dues, s.sys.writes)
  }

  lemma OtherKeepsSends(c: QP.Config, s: Path, dues: seq<Due>, l: QP.Label)
    requires SendsMade(s, dues)
    ensures SendsMade(s.(sys := QP.Next(c, s.sys, l)), dues)
  {
    hide QP.Act;
  }

  /** A write by another thread shows nothing of the reader's. */
  lemma OthersWrite(s: Path, dues: seq<Due>, w: QP.Write)
    requires SendsMade(s, dues) && ShownAreTaken(s, dues) && w.thread !in s.sent
    ensures ShownAreTaken(s.(sys := s.sys.(writes := s.sys.writes + [w])), dues)
  {
    ShownAppend(s.sys.writes, w, s.sent);
    TakenIgnores(dues, s.sys.writes, w);
  }

  lemma TakenByLast(init: seq<Due>, last: Due, writes: seq<QP.Write>, w: QP.Write)
    requires last.thread == w.thread && !Took(writes, w.thread) && forall d :: d in init ==> d.thread != w.thread
    ensures Taken(init + [last], writes + [w]) ==
            Taken(init + [last], writes) + if w.n >= 0 then [last.frame] else []
  {
    TakenAppend(init, last, writes);
    TakenAppend(init, last, writes + [w]);
    TakenIgnores(init, writes, w);
    TookNow(writes, w);
    assert Taken(init, writes) + [] == Taken(init, writes);
  }

  /** The write of the current send shows its frame, if it takes. */
  lemma CurrentWrites(s: Path, dues: seq<Due>, w: QP.Write)
    requires SendsMade(s, dues) && ShownAreTaken(s, dues)
    requires s.current == Some(w.thread) && WritesBy(s.sys.writes, w.thread) == []
    ensures ShownAreTaken(s.(sys := s.sys.(writes := s.sys.writes + [w])), dues)
  {
    hide Taken, Shown;
    var init, last := dues[..|dues| - 1], dues[|dues| - 1];
    assert dues == init + [last] && last in dues;
    ShownAppend(s.sys.writes, w, s.sent);
    TookOwn(s.sys.writes, w.thread);
    TakenByLast(init, last, s.sys.writes, w);
  }

  lemma TookNow(writes: seq<QP.Write>, w: QP.Write)
    requires !Took(writes, w.thread)
    ensures Took(writes + [w], w.thread) <==> w.n >= 0
  {
    assert w in writes + [w];
  }

  lemma StepKeepsTaken(c: QP.Config, f: nat, priority: int, s: Path, dues: seq<Due>, u: nat, n: int)
    requires f > 0 && Inv(c, f, priority, s) && priority < 0 && QP.Enabled(s.sys, QP.Step(u, n))
    requires SendsMade(s, dues) && ShownAreTaken(s, dues)
    ensures ShownAreTaken(s.(sys := QP.Next(c, s.sys, QP.Step(u, n))), dues)
  {
    var p := s.sys.threads[u];
    var e := QP.Act(c, s.sys.sh, u, p, n);
    WriteAdded(c, s.sys.sh, u, p, n);
    if e.writes == [] {
      assert s.sys.writes + e.writes == s.sys.writes;
    } else {
      assert e.writes == [e.writes[0]];
      if u in s.sent {
        CallRegion(c, s.sys.sh, WritesBy(s.sys.writes, u), SpectrumBuffer(f, s.sent[u].values), priority,
                   LetsWrite(c, s.sys.sh), u, p, n);
        assert s.current == Some(u);
        CurrentWrites(s, dues, e.writes[0]);
      } else {
        OthersWrite(s, dues, e.writes[0]);
      }
    }
  }

  lemma OtherKeepsTaken(c: QP.Config, f: nat, priority: int, s: Path, dues: seq<Due>, l: QP.Label)
    requires f > 0 && Inv(c, f, priority, s) && priority < 0
    requires SendsMade(s, dues) && ShownAreTaken(s, dues)
    ensures ShownAreTaken(s.(sys := QP.Next(c, s.sys, l)), dues)
  {
    if QP.Enabled(s.sys, l) {
      if l.Step? {
        StepKeepsTaken(c, f, priority, s, dues, l.thread, l.n);
      } else {
        assert s.sys.writes + [] == s.sys.writes;
      }
    }
  }

  /** A turn that sends adds the send it owes, which has shown nothing yet. */
  lemma LaunchKeepsTaken(c: QP.Config, f: nat, priority: int, s: Path, dues: seq<Due>, t: nat, x: Sent)
    requires f > 0 && Inv(c, f, priority, s) && t !in s.sys.threads
    requires SendsMade(s, dues) && ShownAreTaken(s, dues)
    ensures var s' := Launch(c, f, priority, s, t, x);
            SendsMade(s', dues + [Due(t, x)]) && ShownAreTaken(s', dues + [Due(t, x)])
  {
    LaunchSystem(c, f, priority, s, t, x);
    LaunchMakes(s, Launch(c, f, priority, s, t, x), dues, t, x);
    NoWritesBy(s.sys.writes, t);
    TookOwn(s.sys.writes, t);
    ShownIgnores(s.sys.writes, s.sent, t, x);
    TakenAppend(dues, Due(t, x), s.sys.writes);
  }

  lemma LaunchMakes(s: Path, s': Path, dues: seq<Due>, t: nat, x: Sent)
    requires SendsMade(s, dues) && t !in s.sys.threads
    requires s'.sent == s.sent[t := x] && s'.current == Some(t) && t in s'.sys.threads
    requires forall u :: u in s.sys.threads ==> u in s'.sys.threads
    ensures SendsMade(s', dues + [Due(t, x)])
  {
    var more := dues + [Due(t, x)];
    forall u | u in s'.sent
      ensures exists d :: d in more && d.thread == u
    {
      if u == t {
        assert Due(t, x) in more;
      } else {
        var d :| d in dues && d.thread == u;
        assert d in more;
      }
    }
  }

  lemma NewestHandedOut(f: nat, chunks: seq<seq<byte>>, after: seq<seq<byte>>, values: seq<byte>)
    requires f > 0 && HandedOut(f, chunks, after, MAX_SPECTRUM_VALUES, Some(values))
    ensures Newest(f, after) == |Flatten(after)| / f - 1
  {
  }

  lemma ReadKeepsSends(s: Path, dues: seq<Due>, chunk: seq<byte>)
    requires SendsMade(s, dues) && ShownAreTaken(s, dues)
    ensures var read := s.(chunks := s.chunks + [chunk]); SendsMade(read, dues) && ShownAreTaken(read, dues)
  {
  }

  lemma TurnKeepsTaken(c: QP.Config, f: nat, priority: int, s: Path, dues: seq<Due>, m: Move)
    requires f > 0 && Inv(c, f, priority, s) && priority < 0 && m.Turn? && Allowed(f, s, m)
    requires SendsMade(s, dues) && ShownAreTaken(s, dues)
    ensures var s' := Next(c, f, priority, s, m);
            SendsMade(s', dues + NewDue(f, s, m)) && ShownAreTaken(s', dues + NewDue(f, s, m))
  {
    hide Inv, SendsMade, ShownAreTaken, Launch;
    var read := s.(chunks := s.chunks + [m.chunk]);
    ReadKeepsSends(s, dues, m.chunk);
    if m.frame.Some? && !m.skip {
      ReadKeeps(c, f, priority, s, m.chunk);
      NewestHandedOut(f, s.chunks, read.chunks, m.frame.value);
      LaunchKeepsTaken(c, f, priority, read, dues, m.thread, Sent(Newest(f, read.chunks), m.frame.value));
    } else {
      assert dues + [] == dues;
    }
  }

  lemma NextKeepsTaken(c: QP.Config, f: nat, priority: int, s: Path, dues: seq<Due>, m: Move)
    requires f > 0 && Inv(c, f, priority, s) && priority < 0
    requires SendsMade(s, dues) && ShownAreTaken(s, dues)
    ensures var s' := Next(c, f, priority, s, m);
            SendsMade(s', dues + NewDue(f, s, m)) && ShownAreTaken(s', dues + NewDue(f, s, m))
  {
    hide SendsMade, ShownAreTaken, Inv;
    assert dues + [] == dues;
    if Allowed(f, s, m) {
      match m
      case Other(l) =>
        OtherKeepsSends(c, s, dues, l);
        OtherKeepsTaken(c, f, priority, s, dues, l);
      case Turn(_, _, _, _) => TurnKeepsTaken(c, f, priority, s, dues, m);
    }
  }

  lemma {:induction false} EverySendMade(c: QP.Config, f: nat, priority: int, ms: seq<Move>)
    requires f > 0 && priority < 0
    ensures var s, dues := Run(c, f, priority, ms), Owed(c, f, priority, ms);
            SendsMade(s, dues) && ShownAreTaken(s, dues)
  {
    if ms != [] {
      var init := ms[..|ms| - 1];
      EverySendMade(c, f, priority, init);
      Reachable(c, f, priority, init);
      NextKeepsTaken(c, f, priority, Run(c, f, priority, init), Owed(c, f, priority, init), ms[|ms| - 1]);
    }
  }

  /** What has become of a send of the reader: it has returned true if and only if its write took,
      and without having written at all only if the guard is closed. */
  ghost predicate Settled(c: QP.Config, s: Path, t: nat) {
    && t in s.sys.threads
    && (s.sys.threads[t].Returned? ==>
          && (s.sys.threads[t].result <==> Took(s.sys.writes, t))
          && (LetsWrite(c, s.sys.sh) ==> |WritesBy(s.sys.writes, t)| == 1))
  }

  lemma SendSettles(c: QP.Config, f: nat, priority: int, s: Path, t: nat)
    requires CallsStand(c, f, priority, s) && priority < 0 && t in s.sent
    ensures Settled(c, s, t)
  {
    var own := WritesBy(s.sys.writes, t);
    StandsSettles(own, SpectrumBuffer(f, s.sent[t].values), priority, LetsWrite(c, s.sys.sh), s.sys.threads[t]);
    TookOwn(s.sys.writes, t);
  }

  /** Exactly which spectra the device decodes, over every interleaving, with 1 to 64 bars and whole
      writes: every frame that is handed out and not skipped is sent, one call for each, and the
      spectra decoded are, in order, the frames of those sends whose write took; each send settles
      as `Settled` says. */
  lemma SpectraExactly(c: QP.Config, f: nat, priority: int, ms: seq<Move>)
    requires 1 <= f <= 64 && priority < 0
    requires AllWhole(Run(c, f, priority, ms).sys.writes)
    ensures var s, dues := Run(c, f, priority, ms), Owed(c, f, priority, ms);
            && (forall w :: w in s.sys.writes ==> w.n <= |w.data|)
            && Spectra(Decode(Line(s.sys.writes)).0) == AsMessages(f, Taken(dues, s.sys.writes))
            && (forall i, j :: 0 <= i < j < |dues| ==> dues[i].thread != dues[j].thread)
            && forall d :: d in dues ==> Settled(c, s, d.thread)
  {
    var s, dues := Run(c, f, priority, ms), Owed(c, f, priority, ms);
    var shown := SpectraInOrder(c, f, priority, ms);
    EverySendMade(c, f, priority, ms);
    Reachable(c, f, priority, ms);
    forall d | d in dues
      ensures Settled(c, s, d.thread)
    {
      SendSettles(c, f, priority, s, d.thread);
    }
  }
}
