/** The threads around one serial queue: any number of senders and stoppers and one worker.
    Each lock region is one step and each write(2) is a step of its own outside the locks,
    so every interleaving of the program's regions is a run of this system. */
module QueueProtocol {
  import opened Base
  import opened QueueOrder
  import opened QueueLog
  import opened SerialQueues

  const WORKER: nat := 0

  datatype Config = Config(max: nat, fdOpen: bool)

  datatype Source = FromWorker(item: Item) | FromSender

  /** Where a thread stands: the next region it will enter. */
  datatype Position =
    | SendEnter(data: seq<byte>, priority: int)
    | SendEnqueue(data: seq<byte>, priority: int)
    | WriteGuard(source: Source, data: seq<byte>)
    | WriteCall(source: Source, data: seq<byte>)
    | WriteAccount(source: Source, data: seq<byte>, ok: bool)
    | WriteDisconnect(source: Source, data: seq<byte>)
    | WorkerTop
    | WorkerEnded
    | StopEnter
    | StopJoin
    | Stopped
    | Returned(result: bool)

  /** One call of write(2) and its result. */
  datatype Write = Write(thread: nat, source: Source, data: seq<byte>, n: int)

  /** The shared state, the threads, and what has happened so far: queue events, the items the
      worker is done with, those it gave up at the guard, the writes, and the write outcomes in
      the order in which the error lock was taken. */
  datatype System = System(
    sh: Shared, threads: map<nat, Position>, log: seq<Event>, tried: seq<Item>,
    refused: seq<Item>, writes: seq<Write>, outcomes: seq<bool>)

  datatype Label = Send(thread: nat, data: seq<byte>, priority: int) | Stop(thread: nat) | Step(thread: nat, n: int)

  const STARTED := System(FRESH_QUEUE, map[WORKER := WorkerTop], [], [], [], [], [])

  predicate Enabled(s: System, l: Label) {
    match l
    case Send(t, _, _) => t !in s.threads
    case Stop(t) => t !in s.threads
    case Step(t, n) =>
      && t in s.threads
      && match s.threads[t]
         case WriteCall(_, data) => n <= |data|
         case StopJoin => WORKER in s.threads && s.threads[WORKER] == WorkerEnded
         case WorkerEnded => false
         case Stopped => false
         case Returned(_) => false
         case _ => true
  }

  /** What one region does: where the thread goes, the new shared state, and what is added to
      each part of the history. */
  datatype Effect = Effect(
    next: Position, sh: Shared, logged: seq<Event>, tried: seq<Item>,
    refused: seq<Item>, writes: seq<Write>, outcomes: seq<bool>)

  function Goto(p: Position, sh: Shared): Effect {
    Effect(p, sh, [], [], [], [], [])
  }

  /** write_to_device returns to its caller. */
  function WriteReturns(source: Source, sh: Shared, result: bool): Effect {
    match source
    case FromWorker(item) => Goto(WorkerTop, sh).(tried := [item])
    case FromSender => Goto(Returned(result), sh)
  }

  function WorkerAct(sh: Shared): Effect {
    match WorkerRegion(sh)
    case (_, Wait) => Goto(WorkerTop, sh)
    case (_, Exit) => Goto(WorkerEnded, sh)
    case (sh', Take(x)) => Goto(WriteGuard(FromWorker(x), x.data), sh').(logged := [Popped(x)])
  }

  function EnqueueAct(c: Config, sh: Shared, data: seq<byte>, priority: int): Effect {
    var (sh', accepted) := EnqueueRegion(sh, c.max, data, priority);
    Goto(Returned(accepted), sh').(
    logged := if accepted then [Accepted(Item(priority, sh'.counter, data))] else [])
  }

  function GuardAct(c: Config, sh: Shared, source: Source, data: seq<byte>): Effect {
    if sh.Open() && c.fdOpen then Goto(WriteCall(source, data), sh)
    else WriteReturns(source, sh, false).(refused := SourceItem(source))
  }

  function AccountAct(sh: Shared, source: Source, data: seq<byte>, ok: bool): Effect {
    var (sh', third) := ErrorRegion(sh, ok);
    (if third then Goto(WriteDisconnect(source, data), sh') else WriteReturns(source, sh', ok)).(outcomes := [ok])
  }

  function StopAct(sh: Shared): Effect {
    var (sh', first) := StopRegion(sh);
    Goto(if first then StopJoin else Returned(false), sh')
  }

  function Act(c: Config, sh: Shared, t: nat, p: Position, n: int): Effect {
    match p
    case SendEnter(data, priority) =>
      Goto(if !sh.running then Returned(false)
           else if priority < 0 then WriteGuard(FromSender, data)
           else SendEnqueue(data, priority), sh)
    case SendEnqueue(data, priority) => EnqueueAct(c, sh, data, priority)
    case WriteGuard(source, data) => GuardAct(c, sh, source, data)
    case WriteCall(source, data) =>
      Goto(WriteAccount(source, data, n >= 0), sh).(writes := [Write(t, source, data, n)])
    case WriteAccount(source, data, ok) => AccountAct(sh, source, data, ok)
    case WriteDisconnect(source, data) => WriteReturns(source, DisconnectRegion(sh), false)
    case WorkerTop => WorkerAct(sh)
    case StopEnter => StopAct(sh)
    case StopJoin => Goto(Stopped, sh)
    case other => Goto(other, sh)
  }

  function Apply(s: System, t: nat, e: Effect): System {
    System(e.sh, s.threads[t := e.next], s.log + e.logged, s.tried + e.tried,
           s.refused + e.refused, s.writes + e.writes, s.outcomes + e.outcomes)
  }

  /** A label that is not enabled changes nothing. */
  function Next(c: Config, s: System, l: Label): System {
    if !Enabled(s, l) then s else
    match l
    case Send(t, data, priority) => Apply(s, t, Goto(SendEnter(data, priority), s.sh))
    case Stop(t) => Apply(s, t, Goto(StopEnter, s.sh))
    case Step(t, n) => Apply(s, t, Act(c, s.sh, t, s.threads[t], n))
  }

  function Run(c: Config, s: System, ls: seq<Label>): System {
    if ls == [] then s else Next(c, Run(c, s, ls[..|ls| - 1]), ls[|ls| - 1])
  }

  /** A call adds its thread and changes nothing else. */
  lemma CallAdds(c: Config, s: System, l: Label, p: Position)
    requires Enabled(s, l) && !l.Step? && p == if l.Stop? then StopEnter else SendEnter(l.data, l.priority)
    ensures Next(c, s, l) == s.(threads := s.threads[l.thread := p])
  {
    assert s.log + [] == s.log && s.writes + [] == s.writes;
    assert s.tried + [] == s.tried && s.refused + [] == s.refused && s.outcomes + [] == s.outcomes;
  }

  // ---------- Invariants ----------

  ghost predicate QueueInv(c: Config, s: System) {
    && Legal(s.log, c.max)
    && s.sh.q == QueueAt(s.log, |s.log|)
    && s.sh.counter == CountAt(s.log, |s.log|)
  }

  predicate WorkerPosition(p: Position) {
    match p
    case WorkerTop => true
    case WorkerEnded => true
    case WriteGuard(source, data) => source.FromWorker? && data == source.item.data
    case WriteCall(source, data) => source.FromWorker? && data == source.item.data
    case WriteAccount(source, _, _) => source.FromWorker?
    case WriteDisconnect(source, _) => source.FromWorker?
    case _ => false
  }

  predicate SenderPosition(p: Position) {
    match p
    case WorkerTop => false
    case WorkerEnded => false
    case WriteGuard(source, _) => source.FromSender?
    case WriteCall(source, _) => source.FromSender?
    case WriteAccount(source, _, _) => source.FromSender?
    case WriteDisconnect(source, _) => source.FromSender?
    case SendEnqueue(_, priority) => priority >= 0
    case _ => true
  }

  /** One worker, and no other thread stands where only the worker can. */
  ghost predicate ThreadInv(s: System) {
    && WORKER in s.threads && WorkerPosition(s.threads[WORKER])
    && forall t :: t in s.threads && t != WORKER ==> SenderPosition(s.threads[t])
  }

  /** The item the worker has popped and is not yet done with. */
  function Held(p: Position): seq<Item> {
    match p
    case WriteGuard(source, _) => SourceItem(source)
    case WriteCall(source, _) => SourceItem(source)
    case WriteAccount(source, _, _) => SourceItem(source)
    case WriteDisconnect(source, _) => SourceItem(source)
    case _ => []
  }

  function HeldAndWritten(p: Position): seq<Item> {
    match p
    case WriteAccount(source, _, _) => SourceItem(source)
    case WriteDisconnect(source, _) => SourceItem(source)
    case _ => []
  }

  function SourceItem(source: Source): seq<Item> {
    match source
    case FromWorker(x) => [x]
    case FromSender => []
  }

  function WorkerWrites(writes: seq<Write>): seq<Item> {
    if writes == [] then []
    else WorkerWrites(writes[..|writes| - 1]) + SourceItem(writes[|writes| - 1].source)
  }

  /** Every popped item is one the worker is done with or holds. */
  ghost predicate ItemsKept(s: System, p: Position) {
    PoppedItems(s.log) == s.tried + Held(p)
  }

  /** The worker's writes, then what it gave up at the guard, are the items it is done with and
      the one it has written and holds. */
  ghost predicate WritesInOrder(s: System, p: Position) {
    WorkerWrites(s.writes) + s.refused == s.tried + HeldAndWritten(p)
  }

  /** With an open descriptor at most one item is given up, and the worker then only ends. */
  ghost predicate RefusedLast(c: Config, s: System, p: Position) {
    && (c.fdOpen && s.refused != [] ==> !s.sh.Open() && |s.refused| == 1 && (p.WorkerTop? || p.WorkerEnded?))
    && (!c.fdOpen ==> s.writes == [] && forall t :: t in s.threads ==> !s.threads[t].WriteCall?)
  }

  ghost predicate WorkerInv(c: Config, s: System)
    requires WORKER in s.threads
  {
    var p := s.threads[WORKER];
    ItemsKept(s, p) && WritesInOrder(s, p) && RefusedLast(c, s, p)
  }

  /** The failures at the end of the outcomes with no success after them. */
  function TrailingFailures(outcomes: seq<bool>): nat {
    if outcomes == [] || outcomes[|outcomes| - 1] then 0
    else 1 + TrailingFailures(outcomes[..|outcomes| - 1])
  }

  /** Somewhere three failures stand next to each other. */
  ghost predicate ThreeInARow(outcomes: seq<bool>) {
    exists k: nat :: k + 2 < |outcomes| && !outcomes[k] && !outcomes[k + 1] && !outcomes[k + 2]
  }

  ghost predicate ErrorInv(s: System) {
    && s.sh.errors == TrailingFailures(s.outcomes)
    && (forall t :: t in s.threads && s.threads[t].WriteDisconnect? ==> ThreeInARow(s.outcomes))
    && (s.sh.disconnected ==> ThreeInARow(s.outcomes) || !s.sh.running)
  }

  ghost predicate StopInv(s: System)
    requires WORKER in s.threads
  {
    && (forall t :: t in s.threads && s.threads[t].StopJoin? ==> !s.sh.running)
    && (forall t :: t in s.threads && s.threads[t].Stopped? ==> s.threads[WORKER] == WorkerEnded)
    && (s.threads[WORKER] == WorkerEnded ==> !s.sh.Open())
    && (!s.sh.running ==> s.sh.disconnected)
  }

  ghost predicate Inv(c: Config, s: System) {
    QueueInv(c, s) && ThreadInv(s) && WorkerInv(c, s) && ErrorInv(s) && StopInv(s)
  }

  // ---------- Preservation ----------

  lemma StartedInv(c: Config)
    ensures Inv(c, STARTED)
  {
  }

  /** What a region may do to the queue: nothing, one acceptance, or the worker's pop. */
  ghost predicate QueueEffect(c: Config, sh: Shared, p: Position, e: Effect) {
    if e.logged == [] then e.sh.q == sh.q && e.sh.counter == sh.counter
    else
      && |e.logged| == 1
      && match e.logged[0]
         case Accepted(x) =>
           && p.SendEnqueue? && x.priority == p.priority
           && |sh.q| < c.max && x.sequence == sh.counter + 1
           && e.sh.q == Insert(sh.q, x) && e.sh.counter == sh.counter + 1
         case Popped(x) =>
           && p.WorkerTop? && e.next == WriteGuard(FromWorker(x), x.data)
           && sh.Open() && sh.q != [] && x == sh.q[0] && e.sh.q == sh.q[1..] && e.sh.counter == sh.counter
  }

  lemma ActOnQueue(c: Config, sh: Shared, t: nat, p: Position, n: int)
    ensures QueueEffect(c, sh, p, Act(c, sh, t, p, n))
  {
  }

  function LoggedPops(logged: seq<Event>): seq<Item> {
    if logged != [] && logged[0].Popped? then [logged[0].item] else []
  }

  lemma QueueInvKept(c: Config, s: System, t: nat, p: Position, e: Effect)
    requires QueueInv(c, s) && QueueEffect(c, s.sh, p, e) && (p.SendEnqueue? ==> p.priority >= 0)
    ensures QueueInv(c, Apply(s, t, e))
    ensures PoppedItems(s.log + e.logged) == PoppedItems(s.log) + LoggedPops(e.logged)
  {
    if e.logged == [] {
      assert s.log + e.logged == s.log;
    } else {
      assert e.logged == [e.logged[0]];
      ExtendLegal(s.log, c.max, e.logged[0]);
    }
  }

  lemma PositionsKept(c: Config, sh: Shared, t: nat, p: Position, n: int)
    ensures WorkerPosition(p) ==> WorkerPosition(Act(c, sh, t, p, n).next)
    ensures SenderPosition(p) ==> SenderPosition(Act(c, sh, t, p, n).next)
  {
  }

  lemma ThreadInvKept(c: Config, s: System, l: Label)
    requires ThreadInv(s)
    ensures ThreadInv(Next(c, s, l))
  {
    if Enabled(s, l) && l.Step? {
      PositionsKept(c, s.sh, l.thread, s.threads[l.thread], l.n);
    }
  }

  lemma WorkerWritesAppend(writes: seq<Write>, more: seq<Write>)
    requires |more| <= 1
    ensures WorkerWrites(writes + more) == WorkerWrites(writes) + if more == [] then [] else SourceItem(more[0].source)
  {
    if more == [] {
      assert writes + more == writes;
    } else {
      assert (writes + more)[..|writes|] == writes;
    }
  }

  /** A closed queue stays closed. */
  lemma ClosedStays(c: Config, sh: Shared, t: nat, p: Position, n: int)
    ensures !sh.Open() ==> !Act(c, sh, t, p, n).sh.Open()
  {
  }

  /** What a region may do with the item the worker holds. */
  ghost predicate WorkerEffect(c: Config, p: Position, e: Effect) {
    && Held(p) + LoggedPops(e.logged) == e.tried + Held(e.next)
    && (if e.writes == [] then HeldAndWritten(p) + e.refused == e.tried + HeldAndWritten(e.next)
        else
          && |e.writes| == 1 && p.WriteCall? && SourceItem(e.writes[0].source) == HeldAndWritten(e.next)
          && e.tried == [] && e.refused == [])
    && (e.refused != [] ==> |e.refused| == 1 && p.WriteGuard?)
    && (c.fdOpen && e.refused != [] ==> !e.sh.Open() && e.next.WorkerTop?)
    && (e.next.WriteCall? ==> c.fdOpen)
  }

  lemma ActOnWorkerItem(c: Config, sh: Shared, t: nat, p: Position, n: int)
    requires WorkerPosition(p) || SenderPosition(p)
    ensures WorkerEffect(c, p, Act(c, sh, t, p, n))
  {
    match p {
      case WriteGuard(source, data) => GuardOnItem(c, sh, source, data);
      case WriteAccount(source, data, ok) => AccountOnItem(c, sh, source, data, ok);
      case WriteDisconnect(source, data) => ReturnOnItem(source, DisconnectRegion(sh));
      case WorkerTop => PopOnItem(c, sh);
      case _ =>
    }
  }

  lemma ReturnOnItem(source: Source, sh: Shared)
    ensures var e := WriteReturns(source, sh, false);
            && e.tried == SourceItem(source) && Held(e.next) == [] && HeldAndWritten(e.next) == []
            && e.writes == [] && e.refused == [] && e.logged == [] && !e.next.WriteCall?
  {
  }

  lemma GuardOnItem(c: Config, sh: Shared, source: Source, data: seq<byte>)
    ensures WorkerEffect(c, WriteGuard(source, data), GuardAct(c, sh, source, data))
  {
    ReturnOnItem(source, sh);
  }

  lemma AccountOnItem(c: Config, sh: Shared, source: Source, data: seq<byte>, ok: bool)
    ensures WorkerEffect(c, WriteAccount(source, data, ok), AccountAct(sh, source, data, ok))
  {
  }

  lemma PopOnItem(c: Config, sh: Shared)
    ensures WorkerEffect(c, WorkerTop, WorkerAct(sh))
  {
  }

  /** A sender's region touches nothing of the worker's. */
  lemma SenderActs(c: Config, sh: Shared, t: nat, p: Position, n: int)
    requires SenderPosition(p)
    ensures var e := Act(c, sh, t, p, n);
            && e.tried == [] && e.refused == [] && LoggedPops(e.logged) == []
            && (e.writes == [] || (p.WriteCall? && |e.writes| == 1 && SourceItem(e.writes[0].source) == []))
            && (e.next.WriteCall? ==> c.fdOpen)
  {
  }

  lemma ItemsKeptByWorker(s: System, p: Position, e: Effect)
    requires ItemsKept(s, p) && Held(p) + LoggedPops(e.logged) == e.tried + Held(e.next)
    requires PoppedItems(s.log + e.logged) == PoppedItems(s.log) + LoggedPops(e.logged)
    ensures ItemsKept(Apply(s, WORKER, e), e.next)
  {
    assert s.tried + (Held(p) + LoggedPops(e.logged)) == s.tried + e.tried + Held(e.next);
  }

  lemma Shuffle<T>(w: seq<T>, w': seq<T>, r: seq<T>, r': seq<T>, d: seq<T>, d': seq<T>, h: seq<T>, h': seq<T>)
    requires w + r == d + h
    requires (w' == [] && h + r' == d' + h') || (w' == h' && r == r' == d' == h == [])
    ensures (w + w') + (r + r') == (d + d') + h'
  {
    if w' == [] {
      assert (w + w') + (r + r') == (w + r) + r';
      assert d + (h + r') == (d + d') + h';
    }
  }

  lemma WritesKeptByWorker(c: Config, s: System, p: Position, e: Effect)
    requires WritesInOrder(s, p) && WorkerEffect(c, p, e)
    requires e.writes != [] ==> s.refused == []
    ensures WritesInOrder(Apply(s, WORKER, e), e.next)
  {
    WorkerWritesAppend(s.writes, e.writes);
    var added := if e.writes == [] then [] else SourceItem(e.writes[0].source);
    Shuffle(WorkerWrites(s.writes), added, s.refused, e.refused, s.tried, e.tried,
            HeldAndWritten(p), HeldAndWritten(e.next));
  }

  lemma RefusedKeptByWorker(c: Config, s: System, p: Position, e: Effect)
    requires RefusedLast(c, s, p) && WorkerEffect(c, p, e) && WORKER in s.threads && s.threads[WORKER] == p
    requires !s.sh.Open() ==> !e.sh.Open() && (!c.fdOpen || e.next.WorkerTop? || e.next.WorkerEnded? || s.refused == [])
    ensures RefusedLast(c, Apply(s, WORKER, e), e.next)
  {
  }

  /** Once an item was refused the worker only ends. */
  lemma RefusedWorkerEnds(c: Config, s: System, n: int)
    requires ThreadInv(s) && WorkerInv(c, s)
    ensures var p := s.threads[WORKER];
            var e := Act(c, s.sh, WORKER, p, n);
            !s.sh.Open() ==> !e.sh.Open() && (!c.fdOpen || e.next.WorkerTop? || e.next.WorkerEnded? || s.refused == [])
  {
    ClosedStays(c, s.sh, WORKER, s.threads[WORKER], n);
  }

  lemma WorkerInvOther(c: Config, s: System, t: nat, p: Position, e: Effect)
    requires WORKER in s.threads && WorkerInv(c, s) && t != WORKER
    requires e.tried == [] && e.refused == [] && LoggedPops(e.logged) == []
    requires e.writes == [] || (|e.writes| == 1 && c.fdOpen && SourceItem(e.writes[0].source) == [])
    requires e.next.WriteCall? ==> c.fdOpen
    requires PoppedItems(s.log + e.logged) == PoppedItems(s.log) + LoggedPops(e.logged)
    requires !s.sh.Open() ==> !e.sh.Open()
    ensures WorkerInv(c, Apply(s, t, e))
  {
    var s' := Apply(s, t, e);
    WorkerWritesAppend(s.writes, e.writes);
    assert s'.tried == s.tried && s'.refused == s.refused;
    assert WorkerWrites(s'.writes) == WorkerWrites(s.writes);
  }

  lemma OneMoreOutcome(outcomes: seq<bool>, ok: bool)
    ensures TrailingFailures(outcomes + [ok]) == if ok then 0 else TrailingFailures(outcomes) + 1
    ensures ThreeInARow(outcomes) ==> ThreeInARow(outcomes + [ok])
    ensures !ok && TrailingFailures(outcomes) >= 2 ==> ThreeInARow(outcomes + [ok])
  {
    var more := outcomes + [ok];
    assert more[..|outcomes|] == outcomes;
    if ThreeInARow(outcomes) {
      var k: nat :| k + 2 < |outcomes| && !outcomes[k] && !outcomes[k + 1] && !outcomes[k + 2];
      assert !more[k] && !more[k + 1] && !more[k + 2];
    }
    if !ok && TrailingFailures(outcomes) >= 2 {
      var k: nat := |outcomes| - 2;
      assert outcomes[..|outcomes| - 1][k] == outcomes[k];
      assert !more[k] && !more[k + 1] && !more[k + 2];
    }
  }

  /** What a region may do to the failure count and the disconnect flag. */
  ghost predicate ErrorEffect(sh: Shared, p: Position, e: Effect) {
    && (if e.outcomes == [] then e.sh.errors == sh.errors
        else
          && |e.outcomes| == 1
          && e.sh.errors == (if e.outcomes[0] then 0 else sh.errors + 1))
    && (e.next.WriteDisconnect? ==> |e.outcomes| == 1 && !e.outcomes[0] && e.sh.errors >= 3)
    && (e.sh.disconnected ==> sh.disconnected || p.WriteDisconnect? || !e.sh.running)
    && (e.sh.running ==> sh.running)
  }

  lemma ActOnErrors(c: Config, sh: Shared, t: nat, p: Position, n: int)
    ensures ErrorEffect(sh, p, Act(c, sh, t, p, n))
  {
  }

  lemma ErrorInvKept(s: System, t: nat, p: Position, e: Effect)
    requires ErrorInv(s) && ErrorEffect(s.sh, p, e) && (p.WriteDisconnect? ==> ThreeInARow(s.outcomes))
    ensures ErrorInv(Apply(s, t, e))
  {
    if e.outcomes == [] {
      assert s.outcomes + e.outcomes == s.outcomes;
    } else {
      assert e.outcomes == [e.outcomes[0]];
      OneMoreOutcome(s.outcomes, e.outcomes[0]);
    }
  }

  lemma StopInvKept(c: Config, s: System, t: nat, n: int)
    requires ThreadInv(s) && StopInv(s) && Enabled(s, Step(t, n))
    ensures StopInv(Apply(s, t, Act(c, s.sh, t, s.threads[t], n)))
  {
    ClosedStays(c, s.sh, t, s.threads[t], n);
  }

  lemma InvKept(c: Config, s: System, l: Label)
    requires Inv(c, s)
    ensures Inv(c, Next(c, s, l))
  {
    ThreadInvKept(c, s, l);
    if Enabled(s, l) {
      if l.Step? {
        StepKeepsInv(c, s, l.thread, l.n);
      } else {
        CallKeepsInv(c, s, l);
      }
    }
  }

  lemma StepKeepsInv(c: Config, s: System, t: nat, n: int)
    requires Inv(c, s) && Enabled(s, Step(t, n))
    ensures var s' := Next(c, s, Step(t, n));
            WORKER in s'.threads && QueueInv(c, s') && WorkerInv(c, s') && ErrorInv(s') && StopInv(s')
  {
    var p := s.threads[t];
    var e := Act(c, s.sh, t, p, n);
    ActOnQueue(c, s.sh, t, p, n);
    QueueInvKept(c, s, t, p, e);
    ActOnErrors(c, s.sh, t, p, n);
    ErrorInvKept(s, t, p, e);
    StopInvKept(c, s, t, n);
    ActOnWorkerItem(c, s.sh, t, p, n);
    ClosedStays(c, s.sh, t, p, n);
    PositionsKept(c, s.sh, t, p, n);
    if t == WORKER {
      RefusedWorkerEnds(c, s, n);
      ItemsKeptByWorker(s, p, e);
      WritesKeptByWorker(c, s, p, e);
      RefusedKeptByWorker(c, s, p, e);
    } else {
      SenderActs(c, s.sh, t, p, n);
      WorkerInvOther(c, s, t, p, e);
    }
  }

  lemma CallKeepsInv(c: Config, s: System, l: Label)
    requires Inv(c, s) && Enabled(s, l) && !l.Step?
    ensures Inv(c, Next(c, s, l))
  {
    var p := if l.Stop? then StopEnter else SendEnter(l.data, l.priority);
    CallKeepsParts(c, s, l.thread, p);
    CallAdds(c, s, l, p);
    ThreadInvKept(c, s, l);
  }

  /** A call adds a thread that has done nothing yet. */
  lemma CallKeepsParts(c: Config, s: System, t: nat, p: Position)
    requires Inv(c, s) && t !in s.threads && (p.StopEnter? || p.SendEnter?)
    ensures var s' := s.(threads := s.threads[t := p]);
            && s'.threads[WORKER] == s.threads[WORKER]
            && QueueInv(c, s') && WorkerInv(c, s') && ErrorInv(s') && StopInv(s')
  {
    var s' := s.(threads := s.threads[t := p]);
    assert forall u :: u in s'.threads && u != t ==> u in s.threads && s'.threads[u] == s.threads[u];
  }

  /** Every reachable state satisfies the invariants. */
  lemma {:induction false} Reachable(c: Config, ls: seq<Label>)
    ensures Inv(c, Run(c, STARTED, ls))
  {
    if ls == [] {
      StartedInv(c);
    } else {
      Reachable(c, ls[..|ls| - 1]);
      InvKept(c, Run(c, STARTED, ls[..|ls| - 1]), ls[|ls| - 1]);
    }
  }
}
