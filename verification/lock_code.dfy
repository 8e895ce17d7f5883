/** The locking of the hybrid bridge and everything below it, one function per routine. The
    arguments are the outcomes that decide which guards a call takes. */
module LockCode {
  import opened Base
  import opened LockOrder

  function Briefly(l: Lock): Code {
    Holding(l, Steps([]))
  }

  function LogLine(): Code {
    Briefly(Lock(LoggerLock, 0))
  }

  function Logs(n: nat): Code {
    if n == 0 then Steps([]) else Steps([LogLine(), Logs(n - 1)])
  }

  function When(b: bool, c: Code): Code {
    if b then c else Steps([])
  }

  // ---------- serial_queue.rs ----------

  datatype WriteOutcome = GuardClosed | Succeeded | Failed | ThirdFailure(first: bool)

  /** error_state is dropped before the state lock is taken again. */
  function WriteToDevice(q: nat, o: WriteOutcome): Code {
    Steps([
      Briefly(Lock(QueueState, q)),
      When(!o.GuardClosed?, Briefly(Lock(ErrorState, q))),
      When(o.ThirdFailure?, Holding(Lock(QueueState, q), When(o.ThirdFailure? && o.first, LogLine())))
    ])
  }

  datatype SendOutcome = NotRunning | Critical(write: WriteOutcome) | Full | Queued
  {
    predicate Ok() {
      this == Queued || this == Critical(Succeeded)
    }
  }

  function SendCode(q: nat, o: SendOutcome): Code {
    Steps([
      Holding(Lock(QueueState, q), When(o.NotRunning?, LogLine())),
      match o
      case NotRunning => Steps([])
      case Critical(w) => WriteToDevice(q, w)
      case Full => Holding(Lock(QueueState, q), LogLine())
      case Queued => Briefly(Lock(QueueState, q))
    ])
  }

  /** stats nests error_state and then state. */
  function StatsCode(q: nat): Code {
    Holding(Lock(ErrorState, q), Briefly(Lock(QueueState, q)))
  }

  /** stop clears `running`, takes the handle and joins the worker. */
  function StopCode(q: nat, wasRunning: bool): Code {
    if !wasRunning then Briefly(Lock(QueueState, q))
    else
      Steps([
        Holding(Lock(QueueState, q), ClearRunning(q)),
        Briefly(Lock(WorkerHandle, q)),
        Briefly(Lock(QueueJoin, q)),
        LogLine()
      ])
  }

  /** One turn of the worker: it waits `waits` times, then pops and writes. */
  function WorkerTurn(q: nat, waits: nat, write: Option<WriteOutcome>): Code
    decreases waits
  {
    if waits > 0 then Steps([Briefly(Lock(QueueState, q)), WorkerTurn(q, waits - 1, write)])
    else
      Steps([Briefly(Lock(QueueState, q)), match write case None => LogLine() case Some(w) => WriteToDevice(q, w)])
  }

  // ---------- serial_comm.rs ----------

  /** A counted handle of a queue, and whether dropping it drops the queue. */
  datatype Handle = Handle(id: nat, last: bool)

  /** Dropping the last handle enters stop once more, on a queue that close has already stopped. */
  function DropHandle(h: Handle): Code {
    When(h.last, StopCode(h.id, false))
  }

  /** close joins the queue's worker while it holds the serial state. */
  function CloseCode(comm: nat, queue: Option<Handle>, wasRunning: bool): Code {
    Holding(Lock(SerialLock, comm),
            match queue
            case None => Steps([])
            case Some(h) => Steps([StopCode(h.id, wasRunning), DropHandle(h)]))
  }

  /** The handle is fetched under a short lock; the send runs, and the handle is dropped, outside
      it. */
  function SendMessage(comm: nat, queue: Option<Handle>, o: SendOutcome): Code {
    Steps([
      Briefly(Lock(SerialLock, comm)),
      match queue
      case None => Steps([])
      case Some(h) => Steps([SendCode(h.id, o), DropHandle(h)])
    ])
  }

  function QueueStatsCode(comm: nat, queue: Option<nat>): Code {
    Holding(Lock(SerialLock, comm), match queue case None => Steps([]) case Some(q) => StatsCode(q))
  }

  function ReadMessage(comm: nat): Code {
    Briefly(Lock(SerialLock, comm))
  }

  // ---------- mpd_bridge.rs ----------

  function MpdConnect(ok: bool): Code {
    Holding(Lock(MpdLock, 0), if ok then Holding(Lock(CacheLock, 0), LogLine()) else LogLine())
  }

  function MpdDisconnect(connected: bool): Code {
    Holding(Lock(MpdLock, 0), When(connected, LogLine()))
  }

  datatype PlaylistOutcome = Cached | ListFailed | Listed

  function PlaylistTime(o: PlaylistOutcome): Code {
    Steps([
      Briefly(Lock(CacheLock, 0)),
      match o
      case Cached => Steps([])
      case ListFailed => Briefly(Lock(CacheLock, 0))
      case Listed => Holding(Lock(CacheLock, 0), LogLine())
    ])
  }

  datatype StatusOutcome = NotConnected | StatusFailed(firstTime: bool) | Status(playlist: PlaylistOutcome)

  function BuildStateJson(o: StatusOutcome): Code {
    Holding(Lock(MpdLock, 0),
            match o
            case NotConnected => Steps([])
            case StatusFailed(firstTime) => Holding(Lock(CacheLock, 0), When(firstTime, LogLine()))
            case Status(playlist) => Steps([Briefly(Lock(CacheLock, 0)), PlaylistTime(playlist)]))
  }

  /** `previous` and `stop` look at the cache and drop it before they talk to the server. */
  function HandleCommand(connected: bool, readsCache: bool, logs: nat): Code {
    Holding(Lock(MpdLock, 0),
            if !connected then LogLine()
            else Steps([LogLine(), When(readsCache, Briefly(Lock(CacheLock, 0))), Logs(logs)]))
  }

  // ---------- hybrid_bridge.rs ----------

  function ReportStats(due: bool, queue: Option<nat>): Code {
    Holding(Lock(StatsLock, 0), When(due, Steps([QueueStatsCode(0, queue), LogLine()])))
  }

  /** An update of the player's state: up to two log lines about what has changed, the time of the
      update, the send and the statistics. */
  function MpdUpdate(logs: nat, queue: Option<Handle>, o: SendOutcome): Code {
    Steps([Logs(logs), Briefly(Lock(LastUpdate, 0)), SendMessage(0, queue, o), Briefly(Lock(StatsLock, 0))])
  }

  datatype UpdateOutcome =
    | NotDue
    | NoState(status: StatusOutcome)
    | Updated(playlist: PlaylistOutcome, logs: nat, queue: Option<Handle>, send: SendOutcome)

  function UpdateCode(o: UpdateOutcome): Code {
    match o
    case NotDue => Briefly(Lock(LastUpdate, 0))
    case NoState(status) => BuildStateJson(status)
    case Updated(playlist, logs, queue, send) => Steps([BuildStateJson(Status(playlist)), MpdUpdate(logs, queue, send)])
  }

  /** Without a connection the turn ends early, unless it is time to connect and that works. */
  datatype CheckerOutcome = Waits | ConnectFails | Proceeds(reconnected: bool, update: UpdateOutcome)

  function ProceedCode(reconnected: bool, update: UpdateOutcome): Code {
    Steps([
      When(reconnected, Steps([MpdConnect(true), LogLine()])),
      Briefly(Lock(LastUpdate, 0)),
      UpdateCode(update)
    ])
  }

  function MpdCheckerTurn(o: CheckerOutcome): Code {
    Steps([
      Briefly(Lock(CacheLock, 0)),
      match o
      case Waits => Steps([])
      case ConnectFails => MpdConnect(false)
      case Proceeds(reconnected, update) => ProceedCode(reconnected, update)
    ])
  }

  datatype ReadOutcome =
    | Exited
    | Idle
    | SkippedFrame
    | SentFrame(binary: bool, queue: Option<Handle>, send: SendOutcome)

  function SendFrame(binary: bool, queue: Option<Handle>, send: SendOutcome): Code {
    AroundSend(binary, SendMessage(0, queue, send))
  }

  function AroundSend(binary: bool, send: Code): Code {
    Steps([
      Briefly(Lock(CavaSkip, 0)),
      When(binary, Briefly(Lock(CavaLock, 0))),
      send,
      Briefly(Lock(CavaSkip, 0)),
      Briefly(Lock(StatsLock, 0))
    ])
  }

  function CavaReaderTurn(logs: nat, o: ReadOutcome): Code {
    Steps([
      Holding(Lock(CavaLock, 0), Logs(logs)),
      match o
      case Exited => LogLine()
      case Idle => Steps([])
      case SkippedFrame => Briefly(Lock(CavaSkip, 0))
      case SentFrame(binary, queue, send) => SendFrame(binary, queue, send)
    ])
  }

  datatype CommandOutcome =
    | NoCommand
    | Unsupported
    | Exec(logged: bool)
    | WithoutMpd
    | NoBridge
    | ToBridge(connected: bool, readsCache: bool, logs: nat)

  /** A line that is no command ends the turn; a command is counted and logged. An exec is
      dispatched, with a log line unless it has no name or nothing is configured; what else is
      supported goes to the player's bridge if there is one. */
  function RunCommand(o: CommandOutcome): Code {
    Steps([
      Briefly(Lock(StatsLock, 0)),
      LogLine(),
      When(!o.Unsupported? && !o.Exec?, Briefly(Lock(SupportsLock, 0))),
      match o
      case Exec(logged) => When(logged, LogLine())
      case WithoutMpd => LogLine()
      case ToBridge(connected, readsCache, logs) => HandleCommand(connected, readsCache, logs)
      case _ => Steps([])
    ])
  }

  function CommandTurn(o: CommandOutcome): Code {
    Steps([ReadMessage(0), When(o != NoCommand, RunCommand(o))])
  }

  datatype SysinfoOutcome = NoCollector | Collected(queue: Option<Handle>, send: SendOutcome)

  /** The statistics are kept only of a send that worked. */
  function SysinfoTurn(o: SysinfoOutcome): Code {
    Steps([
      Briefly(Lock(SysinfoLock, 0)),
      match o
      case NoCollector => Steps([])
      case Collected(queue, send) =>
        Steps([SendMessage(0, queue, send), When(queue.Some? && send.Ok(), Briefly(Lock(StatsLock, 0)))])
    ])
  }

  /** One turn of the main loop: a deferred start when `deferred`, then the statistics. */
  function MainTurn(deferred: bool, started: bool, logs: nat, due: bool, queue: Option<nat>): Code {
    Steps([
      Briefly(Lock(CavaDeferred, 0)),
      When(deferred, Holding(Lock(CavaLock, 0), Logs(logs))),
      When(deferred && started, Briefly(Lock(CavaDeferred, 0))),
      When(deferred && started, LogLine()),
      ReportStats(due, queue)
    ])
  }

  /** Joining the threads in the order of their handles. */
  function JoinAll(handles: seq<nat>): Code {
    if handles == [] then Steps([])
    else Steps([LogLine(), Briefly(Lock(ThreadJoin, handles[0])), JoinAll(handles[1..])])
  }

  /** cleanup: disconnect, join every thread, then close the bridges and the serial line. */
  function Cleanup(
      mpd: bool, connected: bool, handles: seq<nat>, cava: nat, queue: Option<Handle>, wasRunning: bool): Code
  {
    Steps([
      LogLine(),
      When(mpd, MpdDisconnect(connected)),
      JoinAll(handles),
      When(mpd, Steps([LogLine(), CloseCode(1, None, false), MpdDisconnect(false)])),
      Holding(Lock(CavaLock, 0), Logs(cava)),
      CloseCode(0, queue, wasRunning)
    ])
  }

  // ---------- Ranks ----------

  lemma {:induction false} LogsAscend(bound: int, joins: bool, n: nat)
    requires bound < 8
    ensures Ascending(bound, joins, Logs(n))
  {
    if n > 0 {
      LogsAscend(bound, joins, n - 1);
    }
  }

  lemma {:induction false} LogAscends(bound: int, joins: bool)
    requires bound < 8
    ensures Ascending(bound, joins, LogLine())
  {
  }

  /** A log line under one more guard. */
  lemma {:induction false} LogUnderAscends(bound: int, joins: bool, l: Lock)
    requires bound < Rank(l) < 8 && !l.kind.QueueJoin?
    ensures Ascending(bound, joins, Holding(l, LogLine()))
  {
    LogAscends(Rank(l), joins);
  }

  lemma {:induction false} WriteAscends(bound: int, joins: bool, q: nat, o: WriteOutcome)
    requires bound < 5
    ensures Ascending(bound, joins, WriteToDevice(q, o))
  {
  }

  lemma {:induction false} SendCodeAscends(bound: int, joins: bool, q: nat, o: SendOutcome)
    requires bound < 5
    ensures Ascending(bound, joins, SendCode(q, o))
  {
    LogUnderAscends(bound, joins, Lock(QueueState, q));
    if o.Critical? {
      WriteAscends(bound, joins, q, o.write);
    }
  }

  lemma {:induction false} StatsAscends(bound: int, joins: bool, q: nat)
    requires bound < 5
    ensures Ascending(bound, joins, StatsCode(q))
  {
    assert Ascending(5, joins, Briefly(Lock(QueueState, q)));
  }

  lemma {:induction false} QueueStatsAscends(bound: int, joins: bool, comm: nat, queue: Option<nat>)
    requires bound < 2
    ensures Ascending(bound, joins, QueueStatsCode(comm, queue))
  {
    if queue.Some? {
      StatsAscends(2, joins, queue.value);
    }
  }

  lemma {:induction false} DropAscends(bound: int, joins: bool, h: Handle)
    requires bound < 6
    ensures Ascending(bound, joins, DropHandle(h))
  {
  }

  lemma {:induction false} SendAscends(bound: int, joins: bool, comm: nat, queue: Option<Handle>, o: SendOutcome)
    requires bound < 2
    ensures Ascending(bound, joins, SendMessage(comm, queue, o))
  {
    if queue.Some? {
      SendCodeAscends(bound, joins, queue.value.id, o);
      DropAscends(bound, joins, queue.value);
    }
  }

  lemma {:induction false} StopAscends(bound: int, joins: bool, q: nat, wasRunning: bool)
    requires bound < 3 && (wasRunning ==> joins)
    ensures Ascending(bound, joins, StopCode(q, wasRunning))
  {
  }

  lemma {:induction false} CloseAscends(bound: int, joins: bool, comm: nat, queue: Option<Handle>, wasRunning: bool)
    requires bound < 2 && (wasRunning ==> joins)
    ensures Ascending(bound, joins, CloseCode(comm, queue, wasRunning))
  {
    if queue.Some? {
      StopAscends(2, joins, queue.value.id, wasRunning);
      DropAscends(2, joins, queue.value);
    }
  }

  lemma {:induction false} WorkerTurnAscends(bound: int, joins: bool, q: nat, waits: nat, write: Option<WriteOutcome>)
    requires bound < 5
    ensures Ascending(bound, joins, WorkerTurn(q, waits, write))
    decreases waits
  {
    if waits > 0 {
      WorkerTurnAscends(bound, joins, q, waits - 1, write);
    } else {
      if write.Some? {
        WriteAscends(bound, joins, q, write.value);
      }
    }
  }

  lemma {:induction false} MpdConnectAscends(bound: int, joins: bool, ok: bool)
    requires bound < 1
    ensures Ascending(bound, joins, MpdConnect(ok))
  {
    LogUnderAscends(1, joins, Lock(CacheLock, 0));
    LogAscends(1, joins);
  }

  lemma {:induction false} MpdDisconnectAscends(bound: int, joins: bool, connected: bool)
    requires bound < 1
    ensures Ascending(bound, joins, MpdDisconnect(connected))
  {
    LogAscends(1, joins);
  }

  lemma {:induction false} PlaylistAscends(bound: int, joins: bool, o: PlaylistOutcome)
    requires bound < 7
    ensures Ascending(bound, joins, PlaylistTime(o))
  {
    LogUnderAscends(bound, joins, Lock(CacheLock, 0));
  }

  lemma {:induction false} BuildStateAscends(bound: int, joins: bool, o: StatusOutcome)
    requires bound < 1
    ensures Ascending(bound, joins, BuildStateJson(o))
  {
    LogUnderAscends(1, joins, Lock(CacheLock, 0));
    if o.Status? {
      PlaylistAscends(1, joins, o.playlist);
    }
  }

  lemma {:induction false} MpdUpdateAscends(bound: int, joins: bool, logs: nat, queue: Option<Handle>, o: SendOutcome)
    requires bound < 1
    ensures Ascending(bound, joins, MpdUpdate(logs, queue, o))
  {
    LogsAscend(bound, joins, logs);
    SendAscends(bound, joins, 0, queue, o);
  }

  lemma {:induction false} UpdateAscends(bound: int, joins: bool, o: UpdateOutcome)
    requires bound < 1
    ensures Ascending(bound, joins, UpdateCode(o))
  {
    match o
    case NotDue =>
    case NoState(status) => BuildStateAscends(bound, joins, status);
    case Updated(playlist, logs, queue, send) =>
      BuildStateAscends(bound, joins, Status(playlist));
      MpdUpdateAscends(bound, joins, logs, queue, send);
  }

  lemma {:induction false} MpdCheckerAscends(bound: int, joins: bool, o: CheckerOutcome)
    requires bound < 1
    ensures Ascending(bound, joins, MpdCheckerTurn(o))
  {
    MpdConnectAscends(bound, joins, false);
    if o.Proceeds? {
      ProceedsAscends(bound, joins, o.reconnected, o.update);
    }
  }

  lemma {:induction false} ProceedsAscends(bound: int, joins: bool, reconnected: bool, update: UpdateOutcome)
    requires bound < 1
    ensures Ascending(bound, joins, ProceedCode(reconnected, update))
  {
    MpdConnectAscends(bound, joins, true);
    LogAscends(bound, joins);
    UpdateAscends(bound, joins, update);
    assert Ascending(bound, joins, Steps([MpdConnect(true), LogLine()]));
  }

  lemma {:induction false} SendFrameAscends(
      bound: int, joins: bool, binary: bool, queue: Option<Handle>, send: SendOutcome)
    requires bound < 1
    ensures Ascending(bound, joins, SendFrame(binary, queue, send))
  {
    SendAscends(bound, joins, 0, queue, send);
    AroundSendAscends(bound, joins, binary, SendMessage(0, queue, send));
  }

  lemma {:induction false} AroundSendAscends(bound: int, joins: bool, binary: bool, send: Code)
    requires bound < 1 && Ascending(bound, joins, send)
    ensures Ascending(bound, joins, AroundSend(binary, send))
  {
  }

  lemma {:induction false} CavaReaderAscends(bound: int, joins: bool, logs: nat, o: ReadOutcome)
    requires bound < 1
    ensures Ascending(bound, joins, CavaReaderTurn(logs, o))
  {
    LogsAscend(7, joins, logs);
    if o.SentFrame? {
      SendFrameAscends(bound, joins, o.binary, o.queue, o.send);
    }
  }

  lemma {:induction false} HandleCommandAscends(bound: int, joins: bool, connected: bool, readsCache: bool, logs: nat)
    requires bound < 1
    ensures Ascending(bound, joins, HandleCommand(connected, readsCache, logs))
  {
    LogAscends(1, joins);
    LogsAscend(1, joins, logs);
  }

  lemma {:induction false} RunCommandAscends(bound: int, joins: bool, o: CommandOutcome)
    requires bound < 1
    ensures Ascending(bound, joins, RunCommand(o))
  {
    LogAscends(bound, joins);
    if o.ToBridge? {
      HandleCommandAscends(bound, joins, o.connected, o.readsCache, o.logs);
    }
  }

  lemma {:induction false} CommandAscends(bound: int, joins: bool, o: CommandOutcome)
    requires bound < 1
    ensures Ascending(bound, joins, CommandTurn(o))
  {
    RunCommandAscends(bound, joins, o);
  }

  lemma {:induction false} SysinfoAscends(bound: int, joins: bool, o: SysinfoOutcome)
    requires bound < 1
    ensures Ascending(bound, joins, SysinfoTurn(o))
  {
    if o.Collected? {
      SendAscends(bound, joins, 0, o.queue, o.send);
    }
  }

  lemma {:induction false} ReportStatsAscends(bound: int, joins: bool, due: bool, queue: Option<nat>)
    requires bound < 1
    ensures Ascending(bound, joins, ReportStats(due, queue))
  {
    LogAscends(1, joins);
    QueueStatsAscends(1, joins, 0, queue);
  }

  lemma {:induction false} MainAscends(
      bound: int, joins: bool, deferred: bool, started: bool, logs: nat, due: bool, queue: Option<nat>)
    requires bound < 1
    ensures Ascending(bound, joins, MainTurn(deferred, started, logs, due, queue))
  {
    LogsAscend(7, joins, logs);
    ReportStatsAscends(bound, joins, due, queue);
  }

  lemma {:induction false} JoinsAscend(bound: int, joins: bool, handles: seq<nat>)
    requires bound < 0
    ensures Ascending(bound, joins, JoinAll(handles))
  {
    if handles != [] {
      JoinsAscend(bound, joins, handles[1..]);
    }
  }

  lemma {:induction false} CleanupAscends(
      bound: int, mpd: bool, connected: bool, handles: seq<nat>, cava: nat, queue: Option<Handle>, wasRunning: bool)
    requires bound < 0
    ensures Ascending(bound, true, Cleanup(mpd, connected, handles, cava, queue, wasRunning))
  {
    LogsAscend(7, true, cava);
    MpdDisconnectAscends(bound, true, connected);
    MpdDisconnectAscends(bound, true, false);
    JoinsAscend(bound, true, handles);
    CloseAscends(bound, true, 1, None, false);
    CloseAscends(bound, true, 0, queue, wasRunning);
  }

  // ---------- What is held around what ----------

  /** Somewhere a lock of kind `inner` is taken. */
  predicate Takes(c: Code, inner: Kind)
    decreases c
  {
    match c
    case Steps(cs) => exists d :: d in cs && Takes(d, inner)
    case Holding(l, body) => l.kind == inner || Takes(body, inner)
    case ClearRunning(_) => false
  }

  /** Somewhere a lock of kind `inner` is taken while one of kind `outer` is held. */
  predicate TakesUnder(c: Code, outer: Kind, inner: Kind)
    decreases c
  {
    match c
    case Steps(cs) => exists d :: d in cs && TakesUnder(d, outer, inner)
    case Holding(l, body) => (l.kind == outer && Takes(body, inner)) || TakesUnder(body, outer, inner)
    case ClearRunning(_) => false
  }

  /** write_to_device holds nothing else while it accounts for a write: error_state is dropped before
      the state lock is taken again. */
  lemma {:induction false} WriteDropsErrorState(q: nat, o: WriteOutcome, inner: Kind)
    ensures !TakesUnder(WriteToDevice(q, o), ErrorState, inner)
  {
    var steps := WriteToDevice(q, o).steps;
    BrieflyHoldsNothing(Lock(QueueState, q), ErrorState, inner);
    BrieflyHoldsNothing(Lock(ErrorState, q), ErrorState, inner);
    BrieflyHoldsNothing(Lock(LoggerLock, 0), ErrorState, inner);
    var last := Holding(Lock(QueueState, q), When(o.ThirdFailure? && o.first, LogLine()));
    assert !TakesUnder(When(o.ThirdFailure? && o.first, LogLine()), ErrorState, inner);
    assert !TakesUnder(last, ErrorState, inner);
    assert !TakesUnder(steps[0], ErrorState, inner) && !TakesUnder(steps[1], ErrorState, inner);
    assert !TakesUnder(steps[2], ErrorState, inner);
  }

  lemma {:induction false} BrieflyHoldsNothing(l: Lock, outer: Kind, inner: Kind)
    ensures !TakesUnder(Briefly(l), outer, inner)
  {
    assert !Takes(Steps([]), inner) && !TakesUnder(Steps([]), outer, inner);
  }

  /** stats takes the state lock while it holds error_state. */
  lemma {:induction false} StatsNests(q: nat)
    ensures TakesUnder(StatsCode(q), ErrorState, QueueState)
  {
  }

  /** stop joins the worker. */
  lemma {:induction false} StopTakesJoin(q: nat)
    ensures Takes(StopCode(q, true), QueueJoin)
  {
    var join := Briefly(Lock(QueueJoin, q));
    assert StopCode(q, true).steps[2] == join && Takes(join, QueueJoin);
  }

  /** close joins the worker of a running queue while it holds the serial state. */
  lemma {:induction false} CloseJoinsUnderSerial(comm: nat, h: Handle)
    ensures TakesUnder(CloseCode(comm, Some(h), true), SerialLock, QueueJoin)
  {
    var inner := Steps([StopCode(h.id, true), DropHandle(h)]);
    StopTakesJoin(h.id);
    assert inner.steps[0] == StopCode(h.id, true) && Takes(inner, QueueJoin);
  }

  /** A send takes nothing while it holds the serial state. */
  lemma {:induction false} SendsOutsideSerial(comm: nat, queue: Option<Handle>, o: SendOutcome, inner: Kind)
    ensures !TakesUnder(SendMessage(comm, queue, o), SerialLock, inner)
  {
    if queue.Some? {
      SendCodeAscends(4, true, queue.value.id, o);
      NoneUnder(SendCode(queue.value.id, o), 4, true, SerialLock, inner);
      DropAscends(4, true, queue.value);
      NoneUnder(DropHandle(queue.value), 4, true, SerialLock, inner);
    }
    BrieflyHoldsNothing(Lock(SerialLock, comm), SerialLock, inner);
    var steps := SendMessage(comm, queue, o).steps;
    assert !TakesUnder(steps[0], SerialLock, inner) && !TakesUnder(steps[1], SerialLock, inner);
  }

  /** Code that only takes locks above a rank takes none below it. */
  lemma {:induction false} NoneBelow(c: Code, bound: int, joins: bool, kind: Kind)
    requires Ascending(bound, joins, c) && Rank(Lock(kind, 0)) <= bound
    ensures !Takes(c, kind)
    decreases c
  {
    match c
    case Steps(cs) =>
      forall d | d in cs
        ensures !Takes(d, kind)
      {
        NoneBelow(d, bound, joins, kind);
      }
    case Holding(l, body) => NoneBelow(body, Rank(l), joins, kind);
    case ClearRunning(_) =>
  }

  lemma {:induction false} NoneUnder(c: Code, bound: int, joins: bool, outer: Kind, inner: Kind)
    requires Ascending(bound, joins, c) && Rank(Lock(outer, 0)) <= bound
    ensures !TakesUnder(c, outer, inner)
    decreases c
  {
    match c
    case Steps(cs) =>
      forall d | d in cs
        ensures !TakesUnder(d, outer, inner)
      {
        NoneUnder(d, bound, joins, outer, inner);
      }
    case Holding(l, body) => NoneUnder(body, Rank(l), joins, outer, inner);
    case ClearRunning(_) =>
  }

  /** cleanup joins its threads with no lock held. */
  lemma {:induction false} CleanupJoinsFree(
      mpd: bool, connected: bool, handles: seq<nat>, cava: nat, queue: Option<Handle>, wasRunning: bool, outer: Kind)
    ensures !TakesUnder(Cleanup(mpd, connected, handles, cava, queue, wasRunning), outer, ThreadJoin)
  {
    CleanupAscends(-1, mpd, connected, handles, cava, queue, wasRunning);
    JoinsFree(Cleanup(mpd, connected, handles, cava, queue, wasRunning), -1, true, outer);
  }

  lemma {:induction false} JoinsFree(c: Code, bound: int, joins: bool, outer: Kind)
    requires Ascending(bound, joins, c)
    ensures !TakesUnder(c, outer, ThreadJoin)
    decreases c
  {
    match c
    case Steps(cs) =>
      forall d | d in cs
        ensures !TakesUnder(d, outer, ThreadJoin)
      {
        JoinsFree(d, bound, joins, outer);
      }
    case Holding(l, body) =>
      NoneBelow(body, Rank(l), joins, ThreadJoin);
      JoinsFree(body, Rank(l), joins, outer);
    case ClearRunning(_) =>
  }
}
