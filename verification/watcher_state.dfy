/** The watcher's state and what each of its operations does to it, given what the outside world
    answers. The class in module Watchers carries the operations out; module WatcherRuns proves
    what every run keeps. */
module WatcherStates {
  import opened Base
  import opened DeviceIds

  const IDENTIFY_RETRIES: nat := 3
  const GRACE_MS: nat := 8000

  /** A bridge process, with the device and identity its command line and environment name. */
  datatype Child = Child(pid: nat, device: string, id: DeviceId)

  datatype Active = Active(
    device: string, bridgeType: DeviceType, format: Format, bars: Option<nat>, hasSysinfo: bool)
  {
    function Id(): DeviceId {
      DeviceId(bridgeType, format, bars, hasSysinfo)
    }
  }

  /** `live` are the bridge processes that run; pids from `next` on are unused. */
  datatype State = State(
    bridge: Option<Child>, startedAt: Option<nat>, active: Option<Active>, live: set<Child>, next: nat)
  {
    predicate ActiveIs(device: string) {
      active.Some? && active.value.device == device
    }

    /** A device counts as handled but no bridge serves it. */
    predicate Unserved() {
      active.Some? && bridge == None
    }
  }

  const FRESH := State(None, None, None, {}, 0)

  /** How one attempt to bring a bridge up meets the outside world: the answers to the identify
      requests (none beyond the last), whether the bridge program is found, whether it can be
      spawned, whether it still runs a second later, and the time by then. */
  datatype Attempt = Attempt(
    answers: seq<Option<Envelope>>, found: bool, spawns: bool, survives: bool, now: nat)

  function AnswerTo(t: Attempt, i: nat): Option<DeviceId> {
    if i < |t.answers| && t.answers[i].Some? then Classify(t.answers[i].value) else None
  }

  /** The first successful identification, from retry `i` on. */
  function Identified(t: Attempt, i: nat): Option<DeviceId>
    decreases IDENTIFY_RETRIES - i
  {
    if i >= IDENTIFY_RETRIES then None
    else if AnswerTo(t, i).Some? then AnswerTo(t, i)
    else Identified(t, i + 1)
  }

  predicate Launches(t: Attempt) {
    t.found && t.spawns && t.survives
  }

  /** A bridge process ends by itself. */
  function Die(s: State, c: Child): State {
    s.(live := s.live - {c})
  }

  function CleanUp(s: State): State {
    s.(bridge := None, live := if s.bridge.Some? then s.live - {s.bridge.value} else s.live)
  }

  /** On failure nothing is left but a used pid. */
  function Start(s: State, id: DeviceId, device: string, t: Attempt): State {
    if !t.found || !t.spawns then s
    else if !t.survives then s.(next := s.next + 1)
    else
      var child := Child(s.next, device, id);
      s.(bridge := Some(child), startedAt := Some(t.now), live := s.live + {child}, next := s.next + 1)
  }

  function Adopt(s: State, id: DeviceId, device: string, t: Attempt): State {
    var started := Start(s, id, device, t);
    if !Launches(t) then started
    else started.(active := Some(Active(device, id.deviceType, id.format, id.bars, id.hasSysinfo)))
  }

  /** Clearing away leaves `active` as it is; it changes only once the new bridge runs. */
  function Handle(s: State, device: string, t: Attempt): State {
    var cleared := if s.active.Some? || s.bridge.Some? then CleanUp(s) else s;
    match Identified(t, 0)
    case None => cleared
    case Some(id) => Adopt(cleared, id, device, t)
  }

  predicate Handled(t: Attempt) {
    Identified(t, 0).Some? && Launches(t)
  }

  /** What a health check sees: the time, and whether the analyser runs. */
  datatype Vitals = Vitals(now: nat, cavaRuns: bool)

  predicate InGrace(s: State, now: nat) {
    s.startedAt.Some? && now - s.startedAt.value < GRACE_MS
  }

  predicate BridgeDied(s: State) {
    s.bridge.Some? && s.bridge.value !in s.live
  }

  /** The health check restarts the analyser's bridge. */
  predicate RestartsCava(s: State, v: Vitals) {
    s.active.Some? && s.active.value.bridgeType == Cava && !InGrace(s, v.now) && !v.cavaRuns
  }

  /** The identity a restart of the analyser rebuilds from what was kept of it. */
  function RebuiltId(a: Active): DeviceId {
    DeviceId(Cava, a.format, a.bars, false)
  }

  function Health(s: State, v: Vitals, t: Attempt): State {
    if BridgeDied(s) then
      var buried := s.(bridge := None);
      if s.active == None then buried else Handle(buried, s.active.value.device, t)
    else if RestartsCava(s, v) then
      var a := s.active.value;
      Start(CleanUp(s), RebuiltId(a), a.device, t)
    else s
  }

  /** Devices are handled in turn until one succeeds; device `i` meets `tries[i]`. */
  function HandleFirst(s: State, devices: seq<string>, tries: seq<Attempt>): State
    requires |devices| <= |tries|
    decreases |devices|
  {
    if devices == [] then s
    else
      var handled := Handle(s, devices[0], tries[0]);
      if Handled(tries[0]) then handled else HandleFirst(handled, devices[1..], tries[1..])
  }

  function Release(s: State): State {
    CleanUp(s).(active := None)
  }

  function RemoveAll(s: State, removed: seq<string>): State
    decreases |removed|
  {
    if removed == [] then s
    else RemoveAll(if s.ActiveIs(removed[0]) then Release(s) else s, removed[1..])
  }

  // ---------- Polling ----------

  /** What a polling cycle does with a device that is not the active one. */
  datatype Visit = CoolsDown | Silent | Answers

  predicate Decisive(s: State, device: string, visit: Visit) {
    s.ActiveIs(device) || visit == Answers
  }

  /** The device a polling cycle stops at. */
  function StopsAt(s: State, devices: seq<string>, visits: seq<Visit>): (k: nat)
    requires |devices| <= |visits|
    ensures k <= |devices|
    ensures forall i :: 0 <= i < k ==> !Decisive(s, devices[i], visits[i])
    ensures k < |devices| ==> Decisive(s, devices[k], visits[k])
  {
    if devices == [] || Decisive(s, devices[0], visits[0]) then 0
    else 1 + StopsAt(s, devices[1..], visits[1..])
  }

  function PollOutcome(s: State, devices: seq<string>, k: nat, v: Vitals, t: Attempt): State {
    if k >= |devices| then (if s.active.Some? then Release(s) else s)
    else if s.ActiveIs(devices[k]) then Health(s, v, t)
    else Handle(s, devices[k], t)
  }

  function Poll(s: State, devices: seq<string>, visits: seq<Visit>, v: Vitals, t: Attempt): State
    requires |devices| <= |visits|
  {
    PollOutcome(s, devices, StopsAt(s, devices, visits), v, t)
  }

  // ---------- Runs ----------

  datatype Event =
    | Death(child: Child)
    | Scan(devices: seq<string>, tries: seq<Attempt>)
    | Check(vitals: Vitals, attempt: Attempt)
    | Hotplug(pending: seq<string>, tries: seq<Attempt>, removed: seq<string>)
    | PollCycle(devices: seq<string>, visits: seq<Visit>, vitals: Vitals, attempt: Attempt)
    | Quit
  {
    predicate WellFormed() {
      match this
      case Scan(devices, tries) => |devices| <= |tries|
      case Hotplug(pending, tries, _) => |pending| <= |tries|
      case PollCycle(devices, visits, _, _) => |devices| <= |visits|
      case _ => true
    }
  }

  function Step(s: State, e: Event): State
    requires e.WellFormed()
  {
    match e
    case Death(c) => Die(s, c)
    case Scan(devices, tries) => HandleFirst(s, devices, tries)
    case Check(v, t) => Health(s, v, t)
    case Hotplug(pending, tries, removed) => RemoveAll(HandleFirst(s, pending, tries), removed)
    case PollCycle(devices, visits, v, t) => Poll(s, devices, visits, v, t)
    case Quit => CleanUp(s)
  }

  function Run(s: State, events: seq<Event>): State
    requires forall e :: e in events ==> e.WellFormed()
    decreases |events|
  {
    if events == [] then s
    else
      assert events[0] in events;
      Run(Step(s, events[0]), events[1..])
  }
}
