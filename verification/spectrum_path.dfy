/** The whole way of a spectrum: the reader thread takes frames from the analyser and sends one
    critical buffer at a time, while any number of other threads send text, the queue's worker
    writes and stops may come in at any moment. */
module SpectrumPath {
  import opened Base
  import opened SerialQueues
  import QP = QueueProtocol
  import opened QueueCalls
  import opened Framing
  import opened CavaReaders
  import opened Wire

  /** A frame on its way: its index in the analyser's stream and the values handed out. */
  datatype Sent = Sent(index: nat, values: seq<byte>)

  /** The queue's threads, what the reads of the analyser returned, the reader's sends by the
      thread of the call, and the last of them. */
  datatype Path = Path(sys: QP.System, chunks: seq<seq<byte>>, sent: map<nat, Sent>, current: Option<nat>)

  /** A step of the queue's threads, or a turn of the reader: a read returns `chunk` and hands out
      `frame`, which the reader skips or sends. */
  datatype Move =
    | Other(l: QP.Label)
    | Turn(chunk: seq<byte>, frame: Option<seq<byte>>, skip: bool, thread: nat)

  const START := Path(QP.STARTED, [], map[], None)

  /** The reader's last send has returned. */
  predicate ReaderIdle(s: Path) {
    s.current == None || (s.current.value in s.sys.threads && s.sys.threads[s.current.value].Returned?)
  }

  ghost predicate Allowed(f: nat, s: Path, m: Move)
    requires f > 0
  {
    match m
    case Other(l) => l.Send? ==> IsText(l.data)
    case Turn(chunk, frame, _, t) =>
      ReaderIdle(s) && t !in s.sys.threads && HandedOut(f, s.chunks, s.chunks + [chunk], MAX_SPECTRUM_VALUES, frame)
  }

  ghost function Next(c: QP.Config, f: nat, priority: int, s: Path, m: Move): Path
    requires f > 0
  {
    if !Allowed(f, s, m) then s
    else
      match m
      case Other(l) => s.(sys := QP.Next(c, s.sys, l))
      case Turn(chunk, frame, skip, t) =>
        var read := s.(chunks := s.chunks + [chunk]);
        if frame == None || skip then read
        else Launch(c, f, priority, read, t, Sent(Newest(f, read.chunks), frame.value))
  }

  /** The index of the newest complete frame. */
  function Newest(f: nat, chunks: seq<seq<byte>>): nat
    requires f > 0
  {
    var n := Complete(f, |Flatten(chunks)|);
    if n == 0 then 0 else n - 1
  }

  /** The reader calls send_binary_spectrum. */
  function Launch(c: QP.Config, f: nat, priority: int, s: Path, t: nat, x: Sent): Path {
    s.(sys := QP.Next(c, s.sys, QP.Send(t, SpectrumBuffer(f, x.values), priority)),
       sent := s.sent[t := x],
       current := Some(t))
  }

  ghost function Run(c: QP.Config, f: nat, priority: int, ms: seq<Move>): Path
    requires f > 0
  {
    if ms == [] then START else Next(c, f, priority, Run(c, f, priority, ms[..|ms| - 1]), ms[|ms| - 1])
  }

  // ---------- What the writes carry ----------

  /** The frames whose write(2) succeeded, in write order. */
  function Shown(writes: seq<QP.Write>, sent: map<nat, Sent>): seq<Sent> {
    if writes == [] then []
    else
      (if writes[0].n >= 0 && writes[0].thread in sent then [sent[writes[0].thread]] else []) + Shown(writes[1..], sent)
  }

  lemma {:induction false} ShownAppend(writes: seq<QP.Write>, w: QP.Write, sent: map<nat, Sent>)
    ensures Shown(writes + [w], sent) ==
            Shown(writes, sent) + if w.n >= 0 && w.thread in sent then [sent[w.thread]] else []
  {
    if writes == [] {
      assert writes + [w] == [w];
      assert Shown([w][1..], sent) == [];
    } else {
      assert (writes + [w])[0] == writes[0] && (writes + [w])[1..] == writes[1..] + [w];
      ShownAppend(writes[1..], w, sent);
      Reassociate(if writes[0].n >= 0 && writes[0].thread in sent then [sent[writes[0].thread]] else [],
                  Shown(writes[1..], sent), if w.n >= 0 && w.thread in sent then [sent[w.thread]] else []);
    }
  }

  lemma {:induction false} ShownIgnores(writes: seq<QP.Write>, sent: map<nat, Sent>, t: nat, x: Sent)
    requires forall w :: w in writes ==> w.thread != t
    ensures Shown(writes, sent[t := x]) == Shown(writes, sent)
  {
    if writes != [] {
      assert writes[0] in writes;
      ShownIgnores(writes[1..], sent, t, x);
    }
  }

  ghost predicate Increasing(shown: seq<Sent>) {
    forall i, j :: 0 <= i < j < |shown| ==> shown[i].index < shown[j].index
  }

  // ---------- The invariant ----------

  /** Each send of the reader is a critical call of its buffer. */
  ghost predicate CallsStand(c: QP.Config, f: nat, priority: int, s: Path) {
    forall t :: t in s.sent ==> t != QP.WORKER && CallStands(c, s.sys, t, SpectrumBuffer(f, s.sent[t].values), priority)
  }

  /** Each frame sent is one of the emitted frames, cut to the 64 values a read may return. */
  ghost predicate FrameFits(f: nat, chunks: seq<seq<byte>>, x: Sent)
    requires f > 0
  {
    && x.index in Emitted(f, chunks) && x.index < Complete(f, |Flatten(chunks)|)
    && x.index * f + f <= |Flatten(chunks)|
    && x.values == FrameAt(Flatten(chunks), f, x.index)[..Min(f, MAX_SPECTRUM_VALUES)]
  }

  ghost predicate FramesFit(f: nat, s: Path)
    requires f > 0
  {
    forall t :: t in s.sent ==> FrameFits(f, s.chunks, s.sent[t])
  }

  /** Everything else in the system is text. */
  ghost predicate TextElsewhere(s: Path) {
    && (forall t :: t in s.sys.threads && t !in s.sent ==> PositionHas(IsText, s.sys.threads[t]))
    && (forall x :: x in s.sys.sh.q ==> IsText(x.data))
    && (forall w :: w in s.sys.writes && w.thread !in s.sent ==> IsText(w.data))
  }

  ghost predicate WritesFit(f: nat, s: Path) {
    forall w :: w in s.sys.writes ==>
      && w.n <= |w.data| && w.thread in s.sys.threads
      && (w.thread in s.sent ==> w.data == SpectrumBuffer(f, s.sent[w.thread].values))
  }

  /** One send at a time, each of a newer frame than those before. */
  ghost predicate OneAtATime(s: Path) {
    && (s.current == None ==> s.sent == map[])
    && (s.current.Some? ==>
          && s.current.value in s.sent
          && forall t :: t in s.sent && t != s.current.value ==>
               && t in s.sys.threads && s.sys.threads[t].Returned?
               && s.sent[t].index < s.sent[s.current.value].index)
  }

  /** What has been shown so far is in order, and older than the current frame until that is
      written. */
  ghost predicate ShownInOrder(s: Path) {
    var shown := Shown(s.sys.writes, s.sent);
    && Increasing(shown)
    && (s.current == None ==> shown == [])
    && (s.current.Some? && s.current.value in s.sent ==>
          forall x :: x in shown ==>
            && x.index <= s.sent[s.current.value].index
            && (WritesBy(s.sys.writes, s.current.value) == [] ==> x.index < s.sent[s.current.value].index))
  }

  ghost predicate Inv(c: QP.Config, f: nat, priority: int, s: Path)
    requires f > 0
  {
    && CallsStand(c, f, priority, s) && FramesFit(f, s) && TextElsewhere(s)
    && WritesFit(f, s) && OneAtATime(s) && ShownInOrder(s)
  }

  // ---------- Steps of the queue's threads ----------

  /** A region entered by one of the reader's calls neither touches the queue nor writes anything
      but its buffer, once. */
  lemma CallRegion(c: QP.Config, sh: Shared, own: seq<QP.Write>, data: seq<byte>, priority: int,
      open: bool, t: nat, p: QP.Position, n: int)
    requires Stands(own, data, priority, open, p) && priority < 0
    ensures var e := QP.Act(c, sh, t, p, n);
            && e.sh.q == sh.q
            && (p.Returned? ==> e.writes == [] && e.next == p)
            && (e.writes != [] ==> own == [] && e.writes == [e.writes[0]] && e.writes[0].thread == t
                                   && e.writes[0].data == data && e.writes[0].n == n && p.WriteCall?)
  {
  }

  lemma TextRegion(c: QP.Config, s: QP.System, t: nat, n: int)
    requires t in s.threads && PositionHas(IsText, s.threads[t]) && forall x :: x in s.sh.q ==> IsText(x.data)
    ensures var e := QP.Act(c, s.sh, t, s.threads[t], n);
            && PositionHas(IsText, e.next)
            && (forall x :: x in e.sh.q ==> IsText(x.data))
            && (e.writes != [] ==> |e.writes| == 1 && IsText(e.writes[0].data))
  {
    var p := s.threads[t];
    ActKeepsPositionData(IsText, c, s.sh, t, p, n);
    QP.ActOnQueue(c, s.sh, t, p, n);
    ActAcceptsData(c, s.sh, t, p, n);
    ActKeepsQueueData(IsText, c, s.sh, p, QP.Act(c, s.sh, t, p, n));
  }

  /** What a region adds to the writes. */
  lemma WriteAdded(c: QP.Config, sh: Shared, t: nat, p: QP.Position, n: int)
    ensures var e := QP.Act(c, sh, t, p, n);
            |e.writes| <= 1 && (e.writes != [] ==> e.writes[0].thread == t && e.writes[0].n == n && p.WriteCall?
                                                   && e.writes[0].data == p.data)
  {
  }

  lemma StepKeepsCalls(c: QP.Config, f: nat, priority: int, s: Path, l: QP.Label)
    requires CallsStand(c, f, priority, s)
    ensures CallsStand(c, f, priority, s.(sys := QP.Next(c, s.sys, l)))
  {
    forall t | t in s.sent
      ensures CallStands(c, QP.Next(c, s.sys, l), t, SpectrumBuffer(f, s.sent[t].values), priority)
    {
      CallKept(c, s.sys, l, t, SpectrumBuffer(f, s.sent[t].values), priority);
    }
  }

  lemma StepKeepsText(c: QP.Config, f: nat, priority: int, s: Path, u: nat, n: int)
    requires f > 0 && Inv(c, f, priority, s) && priority < 0 && QP.Enabled(s.sys, QP.Step(u, n))
    ensures TextElsewhere(s.(sys := QP.Next(c, s.sys, QP.Step(u, n))))
  {
    var p := s.sys.threads[u];
    WriteAdded(c, s.sys.sh, u, p, n);
    if u in s.sent {
      CallRegion(c, s.sys.sh, WritesBy(s.sys.writes, u), SpectrumBuffer(f, s.sent[u].values), priority,
                 LetsWrite(c, s.sys.sh), u, p, n);
    } else {
      TextRegion(c, s.sys, u, n);
    }
  }

  lemma StepKeepsWrites(c: QP.Config, f: nat, priority: int, s: Path, u: nat, n: int)
    requires f > 0 && Inv(c, f, priority, s) && priority < 0 && QP.Enabled(s.sys, QP.Step(u, n))
    ensures WritesFit(f, s.(sys := QP.Next(c, s.sys, QP.Step(u, n))))
  {
    var p := s.sys.threads[u];
    WriteAdded(c, s.sys.sh, u, p, n);
    if u in s.sent {
      CallRegion(c, s.sys.sh, WritesBy(s.sys.writes, u), SpectrumBuffer(f, s.sent[u].values), priority,
                 LetsWrite(c, s.sys.sh), u, p, n);
    }
  }

  lemma StepKeepsTurns(c: QP.Config, f: nat, priority: int, s: Path, u: nat, n: int)
    requires f > 0 && Inv(c, f, priority, s) && priority < 0 && QP.Enabled(s.sys, QP.Step(u, n))
    ensures OneAtATime(s.(sys := QP.Next(c, s.sys, QP.Step(u, n))))
  {
    if u in s.sent {
      CallRegion(c, s.sys.sh, WritesBy(s.sys.writes, u), SpectrumBuffer(f, s.sent[u].values), priority,
                 LetsWrite(c, s.sys.sh), u, s.sys.threads[u], n);
    }
  }

  lemma StepKeepsOrder(c: QP.Config, f: nat, priority: int, s: Path, u: nat, n: int)
    requires f > 0 && Inv(c, f, priority, s) && priority < 0 && QP.Enabled(s.sys, QP.Step(u, n))
    ensures ShownInOrder(s.(sys := QP.Next(c, s.sys, QP.Step(u, n))))
  {
    var p := s.sys.threads[u];
    var e := QP.Act(c, s.sys.sh, u, p, n);
    WriteAdded(c, s.sys.sh, u, p, n);
    if e.writes == [] {
      assert s.sys.writes + e.writes == s.sys.writes;
    } else {
      assert e.writes == [e.writes[0]];
      if u in s.sent {
        CallRegion(c, s.sys.sh, WritesBy(s.sys.writes, u), SpectrumBuffer(f, s.sent[u].values), priority,
                 LetsWrite(c, s.sys.sh), u, p, n);
        assert s.current == Some(u);
      }
      OneMoreShown(s, e.writes[0]);
    }
  }

  lemma OneMoreShown(s: Path, w: QP.Write)
    requires ShownInOrder(s) && OneAtATime(s)
    requires w.thread in s.sent ==> s.current == Some(w.thread) && WritesBy(s.sys.writes, w.thread) == []
    ensures ShownInOrder(s.(sys := s.sys.(writes := s.sys.writes + [w])))
  {
    ShownAppend(s.sys.writes, w, s.sent);
    if s.current.Some? {
      WritesByAppend(s.sys.writes, [w], s.current.value);
    }
  }

  /** A call that begins beside the reader's. */
  lemma CallBegins(c: QP.Config, f: nat, priority: int, s: Path, l: QP.Label)
    requires f > 0 && Inv(c, f, priority, s) && QP.Enabled(s.sys, l) && !l.Step? && (l.Send? ==> IsText(l.data))
    ensures Inv(c, f, priority, s.(sys := QP.Next(c, s.sys, l)))
  {
    StepKeepsCalls(c, f, priority, s, l);
    var p := if l.Stop? then QP.StopEnter else QP.SendEnter(l.data, l.priority);
    QP.CallAdds(c, s.sys, l, p);
    BesideKeeps(c, f, priority, s, l.thread, p);
  }

  lemma BesideKeeps(c: QP.Config, f: nat, priority: int, s: Path, t: nat, p: QP.Position)
    requires f > 0 && Inv(c, f, priority, s) && t !in s.sys.threads && PositionHas(IsText, p)
    ensures var s' := s.(sys := s.sys.(threads := s.sys.threads[t := p]));
            FramesFit(f, s') && TextElsewhere(s') && WritesFit(f, s') && OneAtATime(s') && ShownInOrder(s')
  {
    assert t !in s.sent;
  }

  lemma OtherKeeps(c: QP.Config, f: nat, priority: int, s: Path, l: QP.Label)
    requires f > 0 && Inv(c, f, priority, s) && priority < 0 && (l.Send? ==> IsText(l.data))
    ensures Inv(c, f, priority, s.(sys := QP.Next(c, s.sys, l)))
  {
    if QP.Enabled(s.sys, l) {
      if l.Step? {
        StepKeepsCalls(c, f, priority, s, l);
        StepKeepsText(c, f, priority, s, l.thread, l.n);
        StepKeepsWrites(c, f, priority, s, l.thread, l.n);
        StepKeepsTurns(c, f, priority, s, l.thread, l.n);
        StepKeepsOrder(c, f, priority, s, l.thread, l.n);
      } else {
        CallBegins(c, f, priority, s, l);
      }
    }
  }

  // ---------- Turns of the reader ----------

  lemma ReadKeeps(c: QP.Config, f: nat, priority: int, s: Path, chunk: seq<byte>)
    requires f > 0 && Inv(c, f, priority, s)
    ensures Inv(c, f, priority, s.(chunks := s.chunks + [chunk]))
  {
    var chunks := s.chunks + [chunk];
    assert chunks[..|s.chunks|] == s.chunks;
    ReadsKeepFrames(f, chunks, |s.chunks|);
    DivMonotone(|Flatten(s.chunks)|, |Flatten(chunks)|, f);
    forall t | t in s.sent
      ensures FrameFits(f, chunks, s.sent[t])
    {
      SameFrame(f, Flatten(s.chunks), Flatten(chunks), s.sent[t].index);
    }
  }

  /** The frame handed out is newer than every frame before it. */
  lemma NewFrame(f: nat, chunks: seq<seq<byte>>, chunk: seq<byte>, values: seq<byte>)
    requires f > 0 && HandedOut(f, chunks, chunks + [chunk], MAX_SPECTRUM_VALUES, Some(values))
    ensures var after := chunks + [chunk];
            FrameFits(f, after, Sent(Newest(f, after), values)) && Newest(f, after) >= Complete(f, |Flatten(chunks)|)
  {
    NewestEmitted(f, chunks, chunk);
    FrameOf(f, chunks, chunks + [chunk], Newest(f, chunks + [chunk]), values);
  }

  lemma FrameOf(f: nat, before: seq<seq<byte>>, after: seq<seq<byte>>, k: nat, values: seq<byte>)
    requires f > 0 && HandedOut(f, before, after, MAX_SPECTRUM_VALUES, Some(values))
    requires k == |Flatten(after)| / f - 1 && k in Emitted(f, after)
    ensures FrameFits(f, after, Sent(k, values))
  {
  }

  lemma NewestEmitted(f: nat, chunks: seq<seq<byte>>, chunk: seq<byte>)
    requires f > 0
    ensures var after := chunks + [chunk];
            if Complete(f, |Flatten(after)|) > Complete(f, |Flatten(chunks)|)
            then Emitted(f, after) == Emitted(f, chunks) + [Newest(f, after)] && Newest(f, after) in Emitted(f, after)
            else Emitted(f, after) == Emitted(f, chunks)
  {
    OneMoreRead(f, chunks, chunk);
  }

  lemma LaunchKeepsCalls(c: QP.Config, f: nat, priority: int, s: Path, t: nat, x: Sent)
    requires f > 0 && Inv(c, f, priority, s) && t !in s.sys.threads && QP.WORKER in s.sys.threads
    ensures CallsStand(c, f, priority, Launch(c, f, priority, s, t, x))
  {
    var l := QP.Send(t, SpectrumBuffer(f, x.values), priority);
    NoWritesBy(s.sys.writes, t);
    assert s.sys.writes + [] == s.sys.writes;
    forall u | u in s.sent && u != t
      ensures CallStands(c, QP.Next(c, s.sys, l), u, SpectrumBuffer(f, s.sent[u].values), priority)
    {
      CallKept(c, s.sys, l, u, SpectrumBuffer(f, s.sent[u].values), priority);
    }
  }

  lemma LaunchSystem(c: QP.Config, f: nat, priority: int, s: Path, t: nat, x: Sent)
    requires t !in s.sys.threads
    ensures var s' := Launch(c, f, priority, s, t, x);
            s' == s.(sys := s.sys.(threads := s.sys.threads[t := QP.SendEnter(SpectrumBuffer(f, x.values), priority)]),
                     sent := s.sent[t := x], current := Some(t))
  {
    var data := SpectrumBuffer(f, x.values);
    QP.CallAdds(c, s.sys, QP.Send(t, data, priority), QP.SendEnter(data, priority));
  }

  lemma LaunchKeepsOrder(c: QP.Config, f: nat, priority: int, s: Path, s': Path, t: nat, x: Sent)
    requires f > 0 && Inv(c, f, priority, s) && t !in s.sys.threads
    requires forall u :: u in s.sent ==> s.sent[u].index < x.index
    requires s'.sys.writes == s.sys.writes && s'.sent == s.sent[t := x] && s'.current == Some(t)
    ensures ShownInOrder(s')
  {
    NoWritesBy(s.sys.writes, t);
    ShownIgnores(s.sys.writes, s.sent, t, x);
    ShownAreSent(s.sys.writes, s.sent);
  }

  lemma LaunchKeepsTurns(s: Path, s': Path, t: nat, x: Sent)
    requires OneAtATime(s) && ReaderIdle(s) && t !in s.sys.threads
    requires forall u :: u in s.sent ==> s.sent[u].index < x.index
    requires s'.sent == s.sent[t := x] && s'.current == Some(t)
    requires forall u :: u in s.sys.threads ==> u in s'.sys.threads && s'.sys.threads[u] == s.sys.threads[u]
    ensures OneAtATime(s')
  {
  }

  lemma {:induction false} NoWritesBy(writes: seq<QP.Write>, t: nat)
    requires forall w :: w in writes ==> w.thread != t
    ensures WritesBy(writes, t) == []
  {
    if writes != [] {
      assert writes[|writes| - 1] in writes;
      NoWritesBy(writes[..|writes| - 1], t);
    }
  }

  lemma LaunchKeeps(c: QP.Config, f: nat, priority: int, s: Path, t: nat, x: Sent)
    requires f > 0 && Inv(c, f, priority, s) && ReaderIdle(s) && t !in s.sys.threads && QP.WORKER in s.sys.threads
    requires FrameFits(f, s.chunks, x) && forall u :: u in s.sent ==> s.sent[u].index < x.index
    ensures Inv(c, f, priority, Launch(c, f, priority, s, t, x))
    ensures QP.WORKER in Launch(c, f, priority, s, t, x).sys.threads
  {
    var s' := Launch(c, f, priority, s, t, x);
    LaunchKeepsCalls(c, f, priority, s, t, x);
    LaunchSystem(c, f, priority, s, t, x);
    LaunchKeepsTurns(s, s', t, x);
    LaunchKeepsOrder(c, f, priority, s, s', t, x);
  }

  lemma {:induction false} ShownAreSent(writes: seq<QP.Write>, sent: map<nat, Sent>)
    ensures forall x :: x in Shown(writes, sent) ==> exists t :: t in sent && sent[t] == x
  {
    if writes != [] {
      ShownAreSent(writes[1..], sent);
    }
  }

  lemma TurnSends(c: QP.Config, f: nat, priority: int, s: Path, chunk: seq<byte>, values: seq<byte>, t: nat)
    requires f > 0 && Inv(c, f, priority, s) && QP.WORKER in s.sys.threads
    requires Allowed(f, s, Turn(chunk, Some(values), false, t))
    requires Inv(c, f, priority, s.(chunks := s.chunks + [chunk]))
    ensures var s' := Next(c, f, priority, s, Turn(chunk, Some(values), false, t));
            Inv(c, f, priority, s') && QP.WORKER in s'.sys.threads
  {
    NewFrame(f, s.chunks, chunk, values);
    var read := s.(chunks := s.chunks + [chunk]);
    var x := Sent(Newest(f, read.chunks), values);
    forall u | u in s.sent
      ensures s.sent[u].index < x.index
    {
      assert FrameFits(f, s.chunks, s.sent[u]);
    }
    LaunchKeeps(c, f, priority, read, t, x);
  }

  lemma NextKeeps(c: QP.Config, f: nat, priority: int, s: Path, m: Move)
    requires f > 0 && priority < 0 && Inv(c, f, priority, s) && QP.WORKER in s.sys.threads
    ensures Inv(c, f, priority, Next(c, f, priority, s, m)) && QP.WORKER in Next(c, f, priority, s, m).sys.threads
  {
    if Allowed(f, s, m) {
      match m {
        case Other(l) => OtherKeeps(c, f, priority, s, l);
        case Turn(chunk, frame, skip, t) =>
          ReadKeeps(c, f, priority, s, chunk);
          if frame.Some? && !skip {
            TurnSends(c, f, priority, s, chunk, frame.value, t);
          }
      }
    }
  }

  lemma {:induction false} Reachable(c: QP.Config, f: nat, priority: int, ms: seq<Move>)
    requires f > 0 && priority < 0
    ensures Inv(c, f, priority, Run(c, f, priority, ms)) && QP.WORKER in Run(c, f, priority, ms).sys.threads
  {
    if ms != [] {
      Reachable(c, f, priority, ms[..|ms| - 1]);
      NextKeeps(c, f, priority, Run(c, f, priority, ms[..|ms| - 1]), ms[|ms| - 1]);
    }
  }

  // ---------- What the device shows ----------

  function Spectra(ms: seq<Message>): seq<Message> {
    if ms == [] then [] else (if ms[0].Spectrum? then [ms[0]] else []) + Spectra(ms[1..])
  }

  function AsMessages(f: nat, shown: seq<Sent>): seq<Message>
    requires f < 256
  {
    if shown == [] then [] else [Spectrum(f, shown[0].values)] + AsMessages(f, shown[1..])
  }

  /** Each buffer written is the one sent, and the rest is text. */
  ghost predicate BuffersSent(f: nat, writes: seq<QP.Write>, sent: map<nat, Sent>) {
    forall w :: w in writes ==>
      if w.thread in sent then w.data == SpectrumBuffer(f, sent[w.thread].values) && |sent[w.thread].values| == f
      else IsText(w.data)
  }

  lemma BuffersFramed(f: nat, writes: seq<QP.Write>, sent: map<nat, Sent>)
    requires 1 <= f <= 64 && BuffersSent(f, writes, sent)
    ensures forall w :: w in writes ==> Framed(w.data)
    ensures forall w :: w in writes ==>
              if w.thread in sent then MessageOf(w.data) == Spectrum(f, sent[w.thread].values)
              else MessageOf(w.data).Json?
  {
    forall w | w in writes && w.thread in sent
      ensures Framed(w.data) && MessageOf(w.data) == Spectrum(f, sent[w.thread].values)
    {
      BufferIsMessage(f, sent[w.thread].values);
    }
  }

  lemma {:induction false} SpectraAreShown(f: nat, writes: seq<QP.Write>, sent: map<nat, Sent>)
    requires 1 <= f <= 64
    requires forall w :: w in writes ==> Framed(w.data)
    requires forall w :: w in writes ==>
               if w.thread in sent then MessageOf(w.data) == Spectrum(f, sent[w.thread].values)
               else MessageOf(w.data).Json?
    ensures Spectra(Written(writes)) == AsMessages(f, Shown(writes, sent))
  {
    if writes != [] {
      var w := writes[0];
      assert w in writes;
      SpectraAreShown(f, writes[1..], sent);
      WrittenStep(writes);
      SpectraStep(MessageOf(w.data), Written(writes[1..]));
      if w.thread in sent {
        AsMessagesStep(f, sent[w.thread], Shown(writes[1..], sent));
      }
      assert [] + Written(writes[1..]) == Written(writes[1..]);
      assert [] + Shown(writes[1..], sent) == Shown(writes[1..], sent);
    }
  }

  lemma SpectraStep(m: Message, rest: seq<Message>)
    ensures Spectra([m] + rest) == (if m.Spectrum? then [m] else []) + Spectra(rest)
    ensures [] + Spectra(rest) == Spectra(rest)
  {
    assert ([m] + rest)[1..] == rest;
  }

  lemma AsMessagesStep(f: nat, x: Sent, rest: seq<Sent>)
    requires f < 256
    ensures AsMessages(f, [x] + rest) == [Spectrum(f, x.values)] + AsMessages(f, rest)
  {
    assert ([x] + rest)[1..] == rest;
  }

  lemma WrittenStep(writes: seq<QP.Write>)
    requires writes != [] && forall w :: w in writes ==> Framed(w.data)
    ensures Written(writes) == (if writes[0].n >= 0 then [MessageOf(writes[0].data)] else []) + Written(writes[1..])
  {
    assert writes[0] in writes;
    if writes[0].n >= 0 {
      var d := Delivery(MessageOf(writes[0].data), writes[0].n);
      assert Deliveries(writes) == [d] + Deliveries(writes[1..]);
      assert ([d] + Deliveries(writes[1..]))[1..] == Deliveries(writes[1..]);
    } else {
      assert Deliveries(writes) == Deliveries(writes[1..]);
    }
  }

  lemma FramesAreWhole(f: nat, s: Path)
    requires 1 <= f <= 64 && FramesFit(f, s)
    ensures forall t :: t in s.sent ==>
              s.sent[t].values == FrameAt(Flatten(s.chunks), f, s.sent[t].index) && |s.sent[t].values| == f
  {
    forall t | t in s.sent
      ensures s.sent[t].values == FrameAt(Flatten(s.chunks), f, s.sent[t].index) && |s.sent[t].values| == f
    {
      assert FrameFits(f, s.chunks, s.sent[t]);
    }
  }

  lemma {:induction false} ShownSplit(writes: seq<QP.Write>, sent: map<nat, Sent>, i: nat)
    requires i <= |writes|
    ensures Shown(writes, sent) == Shown(writes[..i], sent) + Shown(writes[i..], sent)
  {
    if i == 0 {
      assert writes[0..] == writes;
    } else {
      var w := writes[0];
      ShownSplit(writes[1..], sent, i - 1);
      assert writes[..i][1..] == writes[1..][..i - 1] && writes[1..][i - 1..] == writes[i..];
      Reassociate(if w.n >= 0 && w.thread in sent then [sent[w.thread]] else [],
                  Shown(writes[1..][..i - 1], sent), Shown(writes[i..], sent));
    }
  }

  lemma {:induction false} SpectraSplit(ms: seq<Message>, more: seq<Message>)
    ensures Spectra(ms + more) == Spectra(ms) + Spectra(more)
  {
    if ms == [] {
      assert [] + more == more;
    } else {
      SpectraSplit(ms[1..], more);
      assert (ms + more)[1..] == ms[1..] + more;
      Reassociate(if ms[0].Spectrum? then [ms[0]] else [], Spectra(ms[1..]), Spectra(more));
    }
  }

  /** What the first `i` writes show, when they are whole. */
  lemma SpectraOfFirst(f: nat, s: Path, i: nat)
    requires 1 <= f <= 64 && i <= |s.sys.writes| && AllWhole(s.sys.writes[..i])
    requires forall w :: w in s.sys.writes ==> w.n <= |w.data|
    requires BuffersSent(f, s.sys.writes, s.sent)
    ensures Spectra(Decode(Line(s.sys.writes)).0) ==
            AsMessages(f, Shown(s.sys.writes[..i], s.sent)) + Spectra(Decode(Line(s.sys.writes[i..])).0)
    ensures ShortLast(s.sys.writes, i) ==>
              Spectra(Decode(Line(s.sys.writes)).0) == AsMessages(f, Shown(s.sys.writes[..i], s.sent))
  {
    var ws, first := s.sys.writes, s.sys.writes[..i];
    BuffersFramed(f, ws, s.sent);
    assert forall w :: w in first ==> w in ws;
    SpectraAreShown(f, first, s.sent);
    RecoversUntilShort(ws, i);
    SpectraSplit(Written(first), Decode(Line(ws[i..])).0);
  }

  /** From the analyser to the device, over every interleaving, with 1 to 64 bars: up to the first
      short write, and until something is written after it, the spectra the device decodes are, in
      order, frames the reads emitted, with strictly increasing indices: a subsequence of the
      emitted frames, each aligned in the analyser's stream and whole, under a header that is the
      bar count. */
  lemma SpectraUntilShort(c: QP.Config, f: nat, priority: int, ms: seq<Move>, i: nat) returns (shown: seq<Sent>)
    requires 1 <= f <= 64 && priority < 0
    requires i <= |Run(c, f, priority, ms).sys.writes| && AllWhole(Run(c, f, priority, ms).sys.writes[..i])
    ensures var s := Run(c, f, priority, ms);
            && (forall w :: w in s.sys.writes ==> w.n <= |w.data|)
            && Spectra(Decode(Line(s.sys.writes)).0) ==
               AsMessages(f, shown) + Spectra(Decode(Line(s.sys.writes[i..])).0)
            && (ShortLast(s.sys.writes, i) ==> Spectra(Decode(Line(s.sys.writes)).0) == AsMessages(f, shown))
            && InOrder(f, s.chunks, shown) && shown == Shown(s.sys.writes[..i], s.sent)
  {
    var s := Run(c, f, priority, ms);
    Reachable(c, f, priority, ms);
    FramesAreWhole(f, s);
    SpectraOfFirst(f, s, i);
    shown := Shown(s.sys.writes[..i], s.sent);
    FirstInOrder(f, s, i);
  }

  lemma FirstInOrder(f: nat, s: Path, i: nat)
    requires 1 <= f <= 64 && FramesFit(f, s) && i <= |s.sys.writes|
    requires Increasing(Shown(s.sys.writes, s.sent))
    ensures InOrder(f, s.chunks, Shown(s.sys.writes[..i], s.sent))
  {
    var shown := Shown(s.sys.writes[..i], s.sent);
    ShownSplit(s.sys.writes, s.sent, i);
    FirstIncrease(shown, Shown(s.sys.writes[i..], s.sent));
    ShownAreSent(s.sys.writes[..i], s.sent);
    forall x | x in shown
      ensures EmittedWhole(f, s.chunks, x)
    {
      var t :| t in s.sent && s.sent[t] == x;
      assert FrameFits(f, s.chunks, s.sent[t]);
    }
  }

  lemma FirstIncrease(first: seq<Sent>, others: seq<Sent>)
    requires Increasing(first + others)
    ensures Increasing(first)
  {
    assert forall i :: 0 <= i < |first| ==> (first + others)[i] == first[i];
  }

  /** An emitted frame, whole in the analyser's stream. */
  ghost predicate EmittedWhole(f: nat, chunks: seq<seq<byte>>, x: Sent)
    requires f > 0
  {
    && x.index in Emitted(f, chunks)
    && x.index * f + f <= |Flatten(chunks)|
    && x.values == FrameAt(Flatten(chunks), f, x.index)
  }

  /** Emitted frames with strictly increasing indices. */
  ghost predicate InOrder(f: nat, chunks: seq<seq<byte>>, shown: seq<Sent>)
    requires f > 0
  {
    Increasing(shown) && forall x :: x in shown ==> EmittedWhole(f, chunks, x)
  }

  /** So with whole writes these are all the spectra it decodes. */
  lemma SpectraInOrder(c: QP.Config, f: nat, priority: int, ms: seq<Move>) returns (shown: seq<Sent>)
    requires 1 <= f <= 64 && priority < 0
    requires AllWhole(Run(c, f, priority, ms).sys.writes)
    ensures var s := Run(c, f, priority, ms);
            && (forall w :: w in s.sys.writes ==> w.n <= |w.data|)
            && Spectra(Decode(Line(s.sys.writes)).0) == AsMessages(f, shown)
            && InOrder(f, s.chunks, shown) && shown == Shown(s.sys.writes, s.sent)
  {
    var ws := Run(c, f, priority, ms).sys.writes;
    assert ws[..|ws|] == ws;
    shown := SpectraUntilShort(c, f, priority, ms, |ws|);
    assert AsMessages(f, shown) + [] == AsMessages(f, shown);
  }
}
