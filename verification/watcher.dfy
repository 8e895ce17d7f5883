/** The watcher: identifying devices, starting and stopping their bridges, and its event loops.
    Every method carries out a function of module WatcherStates. */
module Watchers {
  import opened Base
  import opened DeviceIds
  import opened Backoff
  import opened WatcherStates
  import opened WatcherRuns

  /** The cooldown event of a visit. */
  function VisitOutcome(v: Visit): Outcome {
    match v
    case CoolsDown => Skipped
    case Silent => Failed(true)
    case Answers => Succeeded(true)
  }

  predicate Recognised(answer: Option<Envelope>) {
    answer.Some? && Classify(answer.value).Some?
  }

  /** Where the cycle stops does not depend on the visits it never makes. */
  function Padded(visits: seq<Visit>, n: nat): seq<Visit>
    requires |visits| <= n
  {
    visits + seq(n - |visits|, _ => Silent)
  }

  lemma StopsAtFirst(s: State, devices: seq<string>, visits: seq<Visit>, k: nat)
    requires k <= |visits| <= |devices|
    requires forall i :: 0 <= i < k ==> !Decisive(s, devices[i], visits[i])
    requires k < |devices| ==> s.ActiveIs(devices[k]) || (k < |visits| && visits[k] == Answers)
    ensures StopsAt(s, devices, Padded(visits, |devices|)) == k
    ensures forall i :: 0 <= i < k ==> Padded(visits, |devices|)[i] == visits[i]
  {
    var all := Padded(visits, |devices|);
    assert forall i :: 0 <= i < |visits| ==> all[i] == visits[i];
    var m := StopsAt(s, devices, all);
    assert k < |devices| ==> Decisive(s, devices[k], all[k]);
  }

  /** The first `k` devices have had their visits recorded. */
  ghost predicate Visited(before: map<string, seq<Outcome>>, after: map<string, seq<Outcome>>,
      devices: seq<string>, visits: seq<Visit>, k: nat)
    requires k <= |devices| && k <= |visits|
  {
    forall i :: 0 <= i < k ==> TraceOf(after, devices[i]) == TraceOf(before, devices[i]) + [VisitOutcome(visits[i])]
  }

  ghost predicate Unvisited(before: map<string, seq<Outcome>>, after: map<string, seq<Outcome>>,
      devices: seq<string>, k: nat)
  {
    forall i :: k <= i < |devices| ==> TraceOf(after, devices[i]) == TraceOf(before, devices[i])
  }

  lemma VisitedMore(before: map<string, seq<Outcome>>, now: map<string, seq<Outcome>>, after: map<string, seq<Outcome>>,
      devices: seq<string>, visits: seq<Visit>, visit: Visit)
    requires NoRepeats(devices) && |visits| < |devices|
    requires Visited(before, now, devices, visits, |visits|) && Unvisited(before, now, devices, |visits|)
    requires OnlyEvent(now, after, devices[|visits|], VisitOutcome(visit))
    ensures Visited(before, after, devices, visits + [visit], |visits| + 1)
    ensures Unvisited(before, after, devices, |visits| + 1)
  {
  }

  function Devices(listed: seq<string>): set<string> {
    set d | d in listed
  }

  lemma DevicesMore(listed: seq<string>, i: nat)
    requires i < |listed|
    ensures Devices(listed[..i + 1]) == Devices(listed[..i]) + {listed[i]}
    ensures Devices([]) == {} && listed[..|listed|] == listed
  {
    assert listed[..i + 1] == listed[..i] + [listed[i]];
  }

  /** What handling a device records. */
  function HandleOutcome(t: Attempt): Outcome {
    if Identified(t, 0) == None then Failed(false) else Succeeded(false)
  }

  /** How many devices are handled: all up to the first that succeeds. */
  predicate UpToFirst(devices: seq<string>, tries: seq<Attempt>, n: nat)
    requires |devices| <= |tries|
  {
    && n <= |devices|
    && (forall i :: 0 <= i < n - 1 ==> !Handled(tries[i]))
    && (n < |devices| ==> n > 0 && Handled(tries[n - 1]))
  }

  /** The first `n` devices have been forgotten and handled, and the others are as they were. */
  ghost predicate Replugged(before: map<string, seq<Outcome>>, after: map<string, seq<Outcome>>,
      devices: seq<string>, tries: seq<Attempt>, n: nat)
    requires n <= |devices| <= |tries|
  {
    && (forall i :: 0 <= i < n && devices[i] !in devices[i + 1..n] ==>
          TraceOf(after, devices[i]) == [HandleOutcome(tries[i])])
    && (forall d :: d !in devices[..n] ==> TraceOf(after, d) == TraceOf(before, d))
  }

  lemma TwoEvents(before: seq<Outcome>, between: seq<Outcome>, first: Outcome, second: Outcome)
    requires between == before + [first]
    ensures between + [second] == before + [first, second]
  {
  }

  /** Among the first `n` devices the `i`-th is listed once. */
  predicate Once(devices: seq<string>, i: nat, n: nat)
    requires i < n <= |devices|
  {
    forall j :: 0 <= j < n && j != i ==> devices[j] != devices[i]
  }

  /** The first `n` devices have been handled, each with its outcome recorded behind what was there,
      and the others are as they were. */
  ghost predicate Rescanned(before: map<string, seq<Outcome>>, after: map<string, seq<Outcome>>,
      devices: seq<string>, tries: seq<Attempt>, n: nat)
    requires n <= |devices| <= |tries|
  {
    && (forall i :: 0 <= i < n && Once(devices, i, n) ==>
          TraceOf(after, devices[i]) == TraceOf(before, devices[i]) + [HandleOutcome(tries[i])])
    && (forall d :: d !in devices[..n] ==> TraceOf(after, d) == TraceOf(before, d))
  }

  lemma RescannedAt(before: map<string, seq<Outcome>>, now: map<string, seq<Outcome>>,
      after: map<string, seq<Outcome>>, devices: seq<string>, tries: seq<Attempt>, n: nat, i: nat)
    requires i <= n < |devices| <= |tries| && Rescanned(before, now, devices, tries, n)
    requires OnlyEvent(now, after, devices[n], HandleOutcome(tries[n])) && Once(devices, i, n + 1)
    ensures TraceOf(after, devices[i]) == TraceOf(before, devices[i]) + [HandleOutcome(tries[i])]
  {
    hide TraceOf;
    if i < n {
      assert Once(devices, i, n) && devices[i] != devices[n];
    } else {
      assert devices[n] !in devices[..n];
    }
  }

  lemma RescannedMore(before: map<string, seq<Outcome>>, now: map<string, seq<Outcome>>,
      after: map<string, seq<Outcome>>, devices: seq<string>, tries: seq<Attempt>, n: nat)
    requires n < |devices| <= |tries| && Rescanned(before, now, devices, tries, n)
    requires OnlyEvent(now, after, devices[n], HandleOutcome(tries[n]))
    ensures Rescanned(before, after, devices, tries, n + 1)
  {
    hide TraceOf, Once;
    forall i | 0 <= i < n + 1 && Once(devices, i, n + 1)
      ensures TraceOf(after, devices[i]) == TraceOf(before, devices[i]) + [HandleOutcome(tries[i])]
    {
      RescannedAt(before, now, after, devices, tries, n, i);
    }
    assert devices[..n + 1] == devices[..n] + [devices[n]];
  }

  lemma RepluggedMore(before: map<string, seq<Outcome>>, now: map<string, seq<Outcome>>,
      after: map<string, seq<Outcome>>, devices: seq<string>, tries: seq<Attempt>, n: nat)
    requires n < |devices| <= |tries| && Replugged(before, now, devices, tries, n)
    requires OnlyEvent(now - {devices[n]}, after, devices[n], HandleOutcome(tries[n]))
    ensures Replugged(before, after, devices, tries, n + 1)
  {
    forall i | 0 <= i < n + 1 && devices[i] !in devices[i + 1..n + 1]
      ensures TraceOf(after, devices[i]) == [HandleOutcome(tries[i])]
    {
      assert devices[i + 1..n + 1] == if i == n then [] else devices[i + 1..n] + [devices[n]];
    }
    assert devices[..n + 1] == devices[..n] + [devices[n]];
  }

  class Watcher {
    const cooldowns: Cooldowns
    var bridge: Option<Child>
    var bridgeStartedAt: Option<nat>
    var active: Option<Active>
    /** The process table: the bridge processes that run, and the first unused pid. */
    var live: set<Child>
    var nextPid: nat

    ghost predicate Valid()
      reads this, cooldowns
    {
      Inv(Abs()) && cooldowns.Valid()
    }

    ghost function Abs(): State
      reads this
    {
      State(bridge, bridgeStartedAt, active, live, nextPid)
    }

    constructor ()
      ensures Valid() && Abs() == FRESH && fresh(cooldowns)
    {
      cooldowns := new Cooldowns();
      bridge, bridgeStartedAt, active := None, None, None;
      live, nextPid := {}, 0;
    }

    method CleanupBridges()
      modifies this
      ensures Abs() == CleanUp(old(Abs()))
    {
      if bridge.Some? {
        var child := bridge.value;
        bridge := None;
        if child in live {
          live := live - {child};
        }
      }
    }

    /** Entered only with the bridge slot empty and no bridge process left: the slot is
        overwritten without looking at it. */
    method StartBridge(id: DeviceId, device: string, t: Attempt) returns (ok: bool)
      requires bridge == None && live == {}
      modifies this
      ensures Abs() == Start(old(Abs()), id, device, t) && ok == Launches(t)
    {
      if !t.found || !t.spawns {
        return false;
      }
      var child := Child(nextPid, device, id);
      nextPid := nextPid + 1;
      if !t.survives {
        return false;
      }
      live := live + {child};
      bridge := Some(child);
      bridgeStartedAt := Some(t.now);
      ok := true;
    }

    method IdentifyWithRetries(t: Attempt) returns (id: Option<DeviceId>)
      ensures id == Identified(t, 0)
    {
      id := None;
      var attempt := 0;
      while attempt < IDENTIFY_RETRIES
        invariant attempt <= IDENTIFY_RETRIES && id == None
        invariant Identified(t, 0) == Identified(t, attempt)
      {
        if attempt < |t.answers| && t.answers[attempt].Some? {
          id := Identify(t.answers[attempt].value);
        }
        if id.Some? {
          break;
        }
        attempt := attempt + 1;
      }
    }

    method HandleNewDevice(device: string, t: Attempt) returns (ok: bool)
      requires Valid()
      modifies this, cooldowns
      ensures Valid() && Abs() == Handle(old(Abs()), device, t) && ok == Handled(t)
      ensures OnlyEvent(old(cooldowns.traces), cooldowns.traces, device, HandleOutcome(t))
    {
      HandleKeeps(Abs(), device, t);
      CleanUpKeeps(Abs());
      if active.Some? || bridge.Some? {
        CleanupBridges();
      }
      var id := IdentifyWithRetries(t);
      if id == None {
        cooldowns.RecordFailure(device, false);
        return false;
      }
      cooldowns.RecordSuccess(device, false);
      ok := StartBridge(id.value, device, t);
      if ok {
        active := Some(Active(device, id.value.deviceType, id.value.format, id.value.bars, id.value.hasSysinfo));
      }
    }

    method CheckActiveBridgeHealth(v: Vitals, t: Attempt)
      requires Valid()
      modifies this, cooldowns
      ensures Valid() && Abs() == Health(old(Abs()), v, t)
      ensures if old(bridge).Some? && old(bridge).value !in old(live) && old(active).Some?
              then OnlyEvent(old(cooldowns.traces), cooldowns.traces, old(active).value.device, HandleOutcome(t))
              else cooldowns.traces == old(cooldowns.traces)
    {
      HealthKeeps(Abs(), v, t);
      if bridge.Some? && bridge.value !in live {
        bridge := None;
        if active.Some? {
          var _ := HandleNewDevice(active.value.device, t);
        }
        return;
      }
      if active.Some? {
        var inGrace := bridgeStartedAt.Some? && v.now - bridgeStartedAt.value < GRACE_MS;
        if active.value.bridgeType == Cava && !inGrace && !v.cavaRuns {
          var id := DeviceId(Cava, active.value.format, active.value.bars, false);
          CleanUpKeeps(Abs());
          CleanupBridges();
          var _ := StartBridge(id, active.value.device, t);
        }
      }
    }

    /** Devices found by a scan. */
    method HandleScanned(devices: seq<string>, tries: seq<Attempt>) returns (ghost handled: nat)
      requires Valid() && |devices| <= |tries|
      modifies this, cooldowns
      ensures Valid() && Abs() == HandleFirst(old(Abs()), devices, tries)
      ensures UpToFirst(devices, tries, handled)
      ensures Rescanned(old(cooldowns.traces), cooldowns.traces, devices, tries, handled)
    {
      var i := 0;
      handled := 0;
      while i < |devices|
        invariant handled == i <= |devices| && Valid()
        invariant HandleFirst(old(Abs()), devices, tries) == HandleFirst(Abs(), devices[i..], tries[i..])
        invariant forall j :: 0 <= j < i ==> !Handled(tries[j])
        invariant Rescanned(old(cooldowns.traces), cooldowns.traces, devices, tries, i)
      {
        ghost var now := cooldowns.traces;
        var ok := HandleNewDevice(devices[i], tries[i]);
        RescannedMore(old(cooldowns.traces), now, cooldowns.traces, devices, tries, i);
        i := i + 1;
        handled := i;
        if ok {
          break;
        }
      }
    }

    /** Devices just plugged in: each is handled with its cooldown forgotten. */
    method HandlePlugged(pending: seq<string>, tries: seq<Attempt>) returns (ghost handled: nat)
      requires Valid() && |pending| <= |tries|
      modifies this, cooldowns
      ensures Valid() && Abs() == HandleFirst(old(Abs()), pending, tries)
      ensures UpToFirst(pending, tries, handled)
      ensures Replugged(old(cooldowns.traces), cooldowns.traces, pending, tries, handled)
    {
      var i := 0;
      handled := 0;
      while i < |pending|
        invariant handled == i <= |pending| && Valid()
        invariant HandleFirst(old(Abs()), pending, tries) == HandleFirst(Abs(), pending[i..], tries[i..])
        invariant forall j :: 0 <= j < i ==> !Handled(tries[j])
        invariant Replugged(old(cooldowns.traces), cooldowns.traces, pending, tries, i)
      {
        ghost var now := cooldowns.traces;
        cooldowns.Remove(pending[i]);
        var ok := HandleNewDevice(pending[i], tries[i]);
        RepluggedMore(old(cooldowns.traces), now, cooldowns.traces, pending, tries, i);
        i := i + 1;
        handled := i;
        if ok {
          break;
        }
      }
    }

    method HandleRemoved(removed: seq<string>)
      requires Valid()
      modifies this, cooldowns
      ensures Valid() && Abs() == RemoveAll(old(Abs()), removed)
      ensures cooldowns.traces == old(cooldowns.traces) - Devices(removed)
    {
      var i := 0;
      while i < |removed|
        invariant i <= |removed| && Valid()
        invariant cooldowns.traces == old(cooldowns.traces) - Devices(removed[..i])
        invariant RemoveAll(old(Abs()), removed) == RemoveAll(Abs(), removed[i..])
      {
        cooldowns.Remove(removed[i]);
        DevicesMore(removed, i);
        ReleaseKeeps(Abs());
        if active.Some? && active.value.device == removed[i] {
          CleanupBridges();
          active := None;
        }
        i := i + 1;
      }
    }

    /** One device of a polling cycle, not the active one. */
    method VisitDevice(device: string, answer: Option<Envelope>) returns (visit: Visit)
      requires cooldowns.Valid()
      modifies cooldowns
      ensures cooldowns.Valid() && OnlyEvent(old(cooldowns.traces), cooldowns.traces, device, VisitOutcome(visit))
      ensures visit != CoolsDown ==> (visit == Answers <==> Recognised(answer))
    {
      var skip := cooldowns.ShouldSkip(device);
      if skip {
        return CoolsDown;
      }
      var id := None;
      if answer.Some? {
        id := Identify(answer.value);
      }
      if id.Some? {
        cooldowns.RecordSuccess(device, true);
        return Answers;
      }
      cooldowns.RecordFailure(device, true);
      visit := Silent;
    }

    /** The devices of a polling cycle up to the one it stops at. */
    method VisitDevices(devices: seq<string>, answers: seq<Option<Envelope>>)
      returns (k: nat, ghost visits: seq<Visit>)
      requires cooldowns.Valid() && NoRepeats(devices) && |answers| == |devices|
      modifies cooldowns
      ensures cooldowns.Valid() && |visits| == |devices| && k == StopsAt(Abs(), devices, visits)
      ensures forall i :: 0 <= i < k ==> (visits[i] == Silent ==> !Recognised(answers[i]))
      ensures Visited(old(cooldowns.traces), cooldowns.traces, devices, visits, k)
      ensures k < |devices| && !Abs().ActiveIs(devices[k]) ==> Recognised(answers[k])
      ensures k < |devices| ==>
                TraceOf(cooldowns.traces, devices[k]) == TraceOf(old(cooldowns.traces), devices[k]) +
                if Abs().ActiveIs(devices[k]) then [] else [Succeeded(true)]
      ensures Unvisited(old(cooldowns.traces), cooldowns.traces, devices, k + 1)
    {
      hide TraceOf, Recognised;
      k := 0;
      visits := [];
      ghost var s := Abs();
      ghost var before := cooldowns.traces;
      while k < |devices| && !(active.Some? && active.value.device == devices[k])
        invariant k <= |devices| && |visits| == k && cooldowns.Valid() && Abs() == s
        invariant forall j :: 0 <= j < k ==> !Decisive(s, devices[j], visits[j])
        invariant forall j :: 0 <= j < k ==> (visits[j] == Silent ==> !Recognised(answers[j]))
        invariant Visited(before, cooldowns.traces, devices, visits, k)
        invariant Unvisited(before, cooldowns.traces, devices, k)
      {
        ghost var now := cooldowns.traces;
        var visit := VisitDevice(devices[k], answers[k]);
        VisitedMore(before, now, cooldowns.traces, devices, visits, visit);
        visits := visits + [visit];
        if visit == Answers {
          break;
        }
        k := k + 1;
      }
      StopsAtFirst(s, devices, visits, k);
      visits := Padded(visits, |devices|);
    }

    /** One polling cycle over the listed devices; `answers` are their answers to the identify
        request, if they are asked. Devices before the one the cycle stops at are skipped while
        they cool down and otherwise stay silent, and their cooldowns record just that. */
    method PollingCycle(devices: seq<string>, answers: seq<Option<Envelope>>, v: Vitals, t: Attempt)
      returns (ghost visits: seq<Visit>)
      requires Valid() && NoRepeats(devices) && |answers| == |devices|
      modifies this, cooldowns
      ensures Valid() && |visits| == |devices|
      ensures Abs() == Poll(old(Abs()), devices, visits, v, t)
      ensures var k := StopsAt(old(Abs()), devices, visits);
              && (forall i :: 0 <= i < k ==> (visits[i] == Silent ==> !Recognised(answers[i])))
              && Visited(old(cooldowns.traces), cooldowns.traces, devices, visits, k)
              && Unvisited(old(cooldowns.traces), cooldowns.traces, devices, k + 1)
              && (k < |devices| && !old(Abs()).ActiveIs(devices[k]) ==>
                    && Recognised(answers[k])
                    && TraceOf(cooldowns.traces, devices[k]) ==
                       TraceOf(old(cooldowns.traces), devices[k]) + [Succeeded(true), HandleOutcome(t)])
    {
      var k;
      k, visits := VisitDevices(devices, answers);
      if k < |devices| {
        if active.Some? && active.value.device == devices[k] {
          CheckActiveBridgeHealth(v, t);
        } else {
          ghost var visited := TraceOf(cooldowns.traces, devices[k]);
          var _ := HandleNewDevice(devices[k], t);
          TwoEvents(TraceOf(old(cooldowns.traces), devices[k]), visited, Succeeded(true), HandleOutcome(t));
        }
      } else if active.Some? {
        ReleaseKeeps(Abs());
        CleanupBridges();
        active := None;
      }
    }

    /** Leaving either event loop. */
    method Quit()
      requires Valid()
      modifies this
      ensures Valid() && Abs() == CleanUp(old(Abs())) && live == {}
    {
      CleanUpKeeps(Abs());
      CleanupBridges();
    }
  }
}
