/** What every run of the watcher keeps. */
module WatcherRuns {
  import opened Base
  import opened DeviceIds
  import opened WatcherStates

  /** Every live bridge process is the one the watcher holds, so there is at most one; it serves
      the active device with the identity the device was given; and an active analyser has no
      sysinfo mode. */
  ghost predicate Inv(s: State) {
    && (forall c :: c in s.live ==> s.bridge == Some(c))
    && (s.bridge.Some? ==> s.bridge.value.pid < s.next)
    && (s.bridge.Some? ==> s.active.Some? && Serves(s.bridge.value, s.active.value))
    && (s.active.Some? && s.active.value.bridgeType == Cava ==> !s.active.value.hasSysinfo)
  }

  predicate Serves(c: Child, a: Active) {
    c.device == a.device && c.id == a.Id()
  }

  predicate Sound(id: DeviceId) {
    id.deviceType == Cava ==> !id.hasSysinfo
  }

  lemma {:induction false} IdentifiedSound(t: Attempt, i: nat)
    ensures Identified(t, i).Some? ==> Sound(Identified(t, i).value)
    decreases IDENTIFY_RETRIES - i
  {
    if i < IDENTIFY_RETRIES {
      if i < |t.answers| && t.answers[i].Some? {
        ClassifiedByModes(t.answers[i].value);
      }
      IdentifiedSound(t, i + 1);
    }
  }

  /** At most one bridge process lives. */
  lemma AtMostOneChild(s: State)
    requires Inv(s)
    ensures |s.live| <= 1
  {
    if s.bridge == None {
      assert s.live == {};
    } else {
      assert s.live <= {s.bridge.value};
      SubsetOfOne(s.live, s.bridge.value);
    }
  }

  lemma SubsetOfOne<T>(s: set<T>, x: T)
    requires s <= {x}
    ensures |s| <= 1
  {
    if x in s {
      assert s == {x};
    } else {
      assert s == {};
    }
  }

  lemma CleanUpKeeps(s: State)
    requires Inv(s)
    ensures Inv(CleanUp(s)) && CleanUp(s).bridge == None && CleanUp(s).live == {}
  {
  }

  /** Given an empty bridge slot, a start for the active device keeps the invariant. */
  lemma AdoptKeeps(s: State, id: DeviceId, device: string, t: Attempt)
    requires Inv(s) && s.bridge == None && Sound(id)
    ensures Inv(Adopt(s, id, device, t))
  {
  }

  /** The identity rebuilt for a restart of the analyser is the one it was identified with. */
  lemma RestartKeepsIdentity(s: State, v: Vitals)
    requires Inv(s) && RestartsCava(s, v)
    ensures RebuiltId(s.active.value) == s.active.value.Id()
    ensures s.bridge.Some? ==> RebuiltId(s.active.value) == s.bridge.value.id
  {
  }

  lemma HandleKeeps(s: State, device: string, t: Attempt)
    requires Inv(s)
    ensures Inv(Handle(s, device, t))
  {
    CleanUpKeeps(s);
    IdentifiedSound(t, 0);
    var cleared := if s.active.Some? || s.bridge.Some? then CleanUp(s) else s;
    if Identified(t, 0).Some? {
      AdoptKeeps(cleared, Identified(t, 0).value, device, t);
    }
  }

  lemma RestartKeeps(s: State, v: Vitals, t: Attempt)
    requires Inv(s) && RestartsCava(s, v)
    ensures Inv(Start(CleanUp(s), RebuiltId(s.active.value), s.active.value.device, t))
  {
    CleanUpKeeps(s);
    RestartKeepsIdentity(s, v);
  }

  lemma HealthKeeps(s: State, v: Vitals, t: Attempt)
    requires Inv(s)
    ensures Inv(Health(s, v, t))
  {
    if BridgeDied(s) {
      var buried := s.(bridge := None);
      assert Inv(buried);
      HandleKeeps(buried, s.active.value.device, t);
    } else if RestartsCava(s, v) {
      RestartKeeps(s, v, t);
    }
  }

  lemma {:induction false} HandleFirstKeeps(s: State, devices: seq<string>, tries: seq<Attempt>)
    requires Inv(s) && |devices| <= |tries|
    ensures Inv(HandleFirst(s, devices, tries))
    decreases |devices|
  {
    if devices != [] {
      HandleKeeps(s, devices[0], tries[0]);
      if !Handled(tries[0]) {
        HandleFirstKeeps(Handle(s, devices[0], tries[0]), devices[1..], tries[1..]);
      }
    }
  }

  lemma ReleaseKeeps(s: State)
    requires Inv(s)
    ensures Inv(Release(s)) && Release(s).live == {} && Release(s).bridge == None
  {
    CleanUpKeeps(s);
  }

  /** After a removal the device is neither active nor served. */
  lemma {:induction false} RemoveAllKeeps(s: State, removed: seq<string>)
    requires Inv(s)
    ensures Inv(RemoveAll(s, removed))
    ensures s.active == None ==> RemoveAll(s, removed).active == None
    ensures forall d :: d in removed ==> !RemoveAll(s, removed).ActiveIs(d)
    ensures RemoveAll(s, removed).active.Some? ==> RemoveAll(s, removed) == s
    decreases |removed|
  {
    if removed != [] {
      ReleaseKeeps(s);
      var next := if s.ActiveIs(removed[0]) then Release(s) else s;
      RemoveAllKeeps(next, removed[1..]);
      assert removed == [removed[0]] + removed[1..];
    }
  }

  lemma StepKeeps(s: State, e: Event)
    requires Inv(s) && e.WellFormed()
    ensures Inv(Step(s, e))
  {
    match e {
      case Death(c) =>
      case Scan(devices, tries) => HandleFirstKeeps(s, devices, tries);
      case Check(v, t) => HealthKeeps(s, v, t);
      case Hotplug(pending, tries, removed) =>
        HandleFirstKeeps(s, pending, tries);
        RemoveAllKeeps(HandleFirst(s, pending, tries), removed);
      case PollCycle(devices, visits, v, t) =>
        PollKeeps(s, devices, StopsAt(s, devices, visits), v, t);
      case Quit => CleanUpKeeps(s);
    }
  }

  lemma PollKeeps(s: State, devices: seq<string>, k: nat, v: Vitals, t: Attempt)
    requires Inv(s)
    ensures Inv(PollOutcome(s, devices, k, v, t))
  {
    if k >= |devices| {
      ReleaseKeeps(s);
    } else {
      HealthKeeps(s, v, t);
      HandleKeeps(s, devices[k], t);
    }
  }

  lemma {:induction false} RunKeepsFrom(s: State, events: seq<Event>)
    requires Inv(s) && forall e :: e in events ==> e.WellFormed()
    ensures Inv(Run(s, events))
    decreases |events|
  {
    if events != [] {
      assert events[0] in events;
      StepKeeps(s, events[0]);
      RunKeepsFrom(Step(s, events[0]), events[1..]);
    }
  }

  /** Over every run from the start: at most one bridge process lives, and it is the one the
      watcher holds, for the active device and with the identity that device was given. Leaving
      the loop ends it. */
  lemma EveryRun(events: seq<Event>)
    requires forall e :: e in events ==> e.WellFormed()
    ensures var s := Run(FRESH, events);
            && |s.live| <= 1
            && (forall c :: c in s.live ==> s.bridge == Some(c) && s.active.Some? && Serves(c, s.active.value))
            && (s.bridge.Some? ==> s.active.Some? && Serves(s.bridge.value, s.active.value))
            && Step(s, Quit).live == {}
  {
    RunKeepsFrom(FRESH, events);
    AtMostOneChild(Run(FRESH, events));
    CleanUpKeeps(Run(FRESH, events));
  }

  // ---------- The converse: a handled device need not be served ----------

  /** After a device is handled, the active device is served if and only if the handling
      succeeded or there was no active device before. */
  lemma ServedAfterHandling(s: State, device: string, t: Attempt)
    requires Inv(s)
    ensures Handle(s, device, t).Unserved() <==> s.active.Some? && !Handled(t)
    ensures s.active.Some? && !Handled(t) ==> Handle(s, device, t).active == s.active
  {
    CleanUpKeeps(s);
  }

  /** A health check leaves the active device unserved exactly when handling it again after the
      bridge's death fails, when the restart of an analyser fails to launch, even of one that was
      served until then, or when nothing is done for a device that already was unserved. */
  predicate CheckUnserves(s: State, v: Vitals, t: Attempt) {
    && s.active.Some?
    && (if BridgeDied(s) then !Handled(t) else if RestartsCava(s, v) then !Launches(t) else s.bridge == None)
  }

  lemma UnservedAfterCheck(s: State, v: Vitals, t: Attempt)
    requires Inv(s)
    ensures Health(s, v, t).Unserved() <==> CheckUnserves(s, v, t)
    ensures s.active.Some? && !(BridgeDied(s) && Handled(t)) ==> Health(s, v, t).active == s.active
  {
    CleanUpKeeps(s);
    if BridgeDied(s) {
      ServedAfterHandling(s.(bridge := None), s.active.value.device, t);
    }
  }

  /** After a bridge's death in particular, exactly when handling its device again fails. */
  lemma ServedAfterDeath(s: State, v: Vitals, t: Attempt)
    requires Inv(s) && BridgeDied(s)
    ensures Health(s, v, t).Unserved() <==> !Handled(t)
  {
    UnservedAfterCheck(s, v, t);
  }

  /** The first `n` attempts all fail. */
  predicate AllFail(tries: seq<Attempt>, n: nat)
    requires n <= |tries|
    decreases n
  {
    n == 0 || (!Handled(tries[0]) && AllFail(tries[1..], n - 1))
  }

  /** Handling a list of devices leaves one unserved exactly when there was an active device and
      either the list is empty and nothing served it, or every attempt fails. */
  predicate ListUnserves(s: State, devices: seq<string>, tries: seq<Attempt>)
    requires |devices| <= |tries|
  {
    && s.active.Some?
    && (devices == [] ==> s.bridge == None)
    && AllFail(tries, |devices|)
  }

  lemma {:induction false} UnservedAfterList(s: State, devices: seq<string>, tries: seq<Attempt>)
    requires Inv(s) && |devices| <= |tries|
    ensures HandleFirst(s, devices, tries).Unserved() <==> ListUnserves(s, devices, tries)
    ensures ListUnserves(s, devices, tries) ==> HandleFirst(s, devices, tries).active == s.active
    decreases |devices|
  {
    if devices != [] {
      var next := Handle(s, devices[0], tries[0]);
      HandleKeeps(s, devices[0], tries[0]);
      ServedAfterHandling(s, devices[0], tries[0]);
      if !Handled(tries[0]) {
        UnservedAfterList(next, devices[1..], tries[1..]);
        NothingBroughtUp(s, devices[0], tries[0]);
      }
    }
  }

  lemma NothingBroughtUp(s: State, device: string, t: Attempt)
    requires Inv(s) && !Handled(t)
    ensures Handle(s, device, t).bridge == None && Handle(s, device, t).active == s.active
  {
    CleanUpKeeps(s);
  }

  /** Exactly when each event leaves a device active with no bridge to serve it. */
  predicate Unserves(s: State, e: Event)
    requires e.WellFormed()
  {
    match e
    case Death(_) => s.Unserved()
    case Scan(devices, tries) => ListUnserves(s, devices, tries)
    case Check(v, t) => CheckUnserves(s, v, t)
    case Hotplug(pending, tries, removed) => ListUnserves(s, pending, tries) && s.active.value.device !in removed
    case PollCycle(devices, visits, v, t) =>
      var k := StopsAt(s, devices, visits);
      && k < |devices|
      && (if s.ActiveIs(devices[k]) then CheckUnserves(s, v, t) else s.active.Some? && !Handled(t))
    case Quit => s.active.Some?
  }

  /** The exact condition, for every event in every state the watcher can be in. */
  lemma UnservedExactly(s: State, e: Event)
    requires Inv(s) && e.WellFormed()
    ensures Step(s, e).Unserved() <==> Unserves(s, e)
  {
    match e {
      case Death(_) =>
      case Scan(devices, tries) => UnservedAfterList(s, devices, tries);
      case Check(v, t) => UnservedAfterCheck(s, v, t);
      case Hotplug(pending, tries, removed) => UnservedAfterHotplug(s, pending, tries, removed);
      case PollCycle(devices, visits, v, t) => UnservedAfterPoll(s, devices, StopsAt(s, devices, visits), v, t);
      case Quit => CleanUpKeeps(s);
    }
  }

  lemma UnservedAfterHotplug(s: State, pending: seq<string>, tries: seq<Attempt>, removed: seq<string>)
    requires Inv(s) && |pending| <= |tries|
    ensures RemoveAll(HandleFirst(s, pending, tries), removed).Unserved() <==>
            ListUnserves(s, pending, tries) && s.active.value.device !in removed
  {
    var t := HandleFirst(s, pending, tries);
    UnservedAfterList(s, pending, tries);
    HandleFirstKeeps(s, pending, tries);
    RemoveAllKeeps(t, removed);
    if t.active.Some? && t.active.value.device !in removed {
      NoneRemoved(t, removed);
    }
  }

  lemma {:induction false} NoneRemoved(s: State, removed: seq<string>)
    requires s.active.Some? && s.active.value.device !in removed
    ensures RemoveAll(s, removed) == s
    decreases |removed|
  {
    if removed != [] {
      assert removed[0] in removed;
      NoneRemoved(s, removed[1..]);
    }
  }

  lemma UnservedAfterPoll(s: State, devices: seq<string>, k: nat, v: Vitals, t: Attempt)
    requires Inv(s)
    ensures PollOutcome(s, devices, k, v, t).Unserved() <==>
            k < |devices| && (if s.ActiveIs(devices[k]) then CheckUnserves(s, v, t) else s.active.Some? && !Handled(t))
  {
    if k >= |devices| {
      ReleaseKeeps(s);
    } else {
      UnservedAfterCheck(s, v, t);
      ServedAfterHandling(s, devices[k], t);
    }
  }

  /** A live bridge that serves an analyser is given up for a restart that may fail. */
  lemma RestartCanUnserve(s: State, v: Vitals, t: Attempt)
    requires Inv(s) && !s.Unserved() && !BridgeDied(s) && RestartsCava(s, v)
    ensures Health(s, v, t).Unserved() <==> !Launches(t)
    ensures Health(s, v, t).live == {} <==> !Launches(t)
  {
    CleanUpKeeps(s);
  }

  const LUCKY := Attempt([], true, true, true, 0)

  /** Whatever the outside world answers, a check cannot bring the bridge of an unserved device
      back, unless the device is an analyser, out of its grace period, with the analyser down. */
  lemma UnservedStays(s: State, v: Vitals)
    requires s.Unserved()
    ensures (forall t :: Health(s, v, t) == s) <==> !RestartsCava(s, v)
    ensures RestartsCava(s, v) ==> forall t :: Health(s, v, t).bridge.Some? <==> Launches(t)
  {
    if RestartsCava(s, v) {
      assert Health(s, v, LUCKY).bridge.Some?;
    }
  }

  /** A health check, or a polling cycle that stops at the active device. */
  predicate OnlyChecks(s: State, e: Event) {
    match e
    case Check(_, _) => true
    case PollCycle(devices, visits, _, _) =>
      && |devices| <= |visits| && StopsAt(s, devices, visits) < |devices|
      && s.ActiveIs(devices[StopsAt(s, devices, visits)])
    case _ => false
  }

  /** So an unserved device that is no analyser stays unserved through any number of checks, in
      both event loops. */
  lemma {:induction false} StuckUntilEvent(s: State, checks: seq<Event>)
    requires s.Unserved() && s.active.value.bridgeType != Cava
    requires forall e :: e in checks ==> OnlyChecks(s, e)
    ensures (forall e :: e in checks ==> e.WellFormed()) && Run(s, checks) == s
  {
    if checks != [] {
      assert checks[0] in checks;
      StuckStep(s, checks[0]);
      StuckUntilEvent(s, checks[1..]);
    }
  }

  lemma StuckStep(s: State, e: Event)
    requires s.Unserved() && s.active.value.bridgeType != Cava && OnlyChecks(s, e)
    ensures Step(s, e) == s
  {
  }

  /** A run that ends so: a device is found, its bridge dies, and it does not answer again. */
  lemma UnservedIsReachable(device: string, env: Envelope)
    requires Classify(env).Some? && Classify(env).value.deviceType != Cava
    ensures var child := Child(0, device, Classify(env).value);
            var found, silent := Attempt([Some(env)], true, true, true, 0), Attempt([], true, true, true, 0);
            Run(FRESH, [Scan([device], [found]), Death(child), Check(Vitals(0, false), silent)]).Unserved()
  {
    var id := Classify(env).value;
    var child := Child(0, device, id);
    var found, silent := Attempt([Some(env)], true, true, true, 0), Attempt([], true, true, true, 0);
    var scan, death, check := Scan([device], [found]), Death(child), Check(Vitals(0, false), silent);
    assert AnswerTo(found, 0) == Some(id);
    var s1 := Step(FRESH, scan);
    assert s1 == Handle(FRESH, device, found);
    assert s1.bridge == Some(child) && s1.active.Some?;
    var s2 := Step(s1, death);
    assert Identified(silent, 3) == None;
    assert Identified(silent, 2) == None;
    assert Identified(silent, 1) == None;
    assert Identified(silent, 0) == None;
    var s3 := Step(s2, check);
    assert s3.Unserved();
    assert Run(s3, []) == s3;
    assert Run(s2, [check]) == s3;
    assert [death, check][1..] == [check];
    assert Run(s1, [death, check]) == s3;
    assert [scan, death, check][1..] == [death, check];
  }
}
