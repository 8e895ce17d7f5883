/** Whom the watcher serves: what handling a device, a scan, a health check and a polling cycle
    leave behind, in terms of what the outside world answered. */
module WatcherServing {
  import opened Base
  import opened DeviceIds
  import opened WatcherStates
  import opened WatcherRuns

  // ---------- Identification ----------

  /** The `i`-th request is answered by a device that can be classified. */
  predicate Answered(t: Attempt, i: nat) {
    i < |t.answers| && t.answers[i].Some? && Classify(t.answers[i].value).Some?
  }

  /** Identification gives the first answer among three that can be classified, from retry `i` on. */
  lemma {:induction false} IdentifiedFrom(t: Attempt, i: nat, k: nat)
    requires i <= k < 3 && Answered(t, k) && forall j: nat :: i <= j < k ==> !Answered(t, j)
    ensures Identified(t, i) == Classify(t.answers[k].value)
    decreases k - i
  {
    if i < k {
      assert !Answered(t, i);
      IdentifiedFrom(t, i + 1, k);
    }
  }

  lemma {:induction false} NotIdentified(t: Attempt, i: nat)
    requires forall j: nat :: i <= j < 3 ==> !Answered(t, j)
    ensures Identified(t, i) == None
    decreases 3 - i
  {
    if i < 3 {
      assert !Answered(t, i);
      NotIdentified(t, i + 1);
    }
  }

  /** A device is identified if and only if one of three requests is answered so, by the first such
      answer. */
  lemma IdentifiedByFirst(t: Attempt)
    ensures Identified(t, 0).Some? <==> Answered(t, 0) || Answered(t, 1) || Answered(t, 2)
    ensures Answered(t, 0) ==> Identified(t, 0) == Classify(t.answers[0].value)
    ensures !Answered(t, 0) && Answered(t, 1) ==> Identified(t, 0) == Classify(t.answers[1].value)
    ensures !Answered(t, 0) && !Answered(t, 1) && Answered(t, 2) ==> Identified(t, 0) == Classify(t.answers[2].value)
  {
    if Answered(t, 0) {
      IdentifiedFrom(t, 0, 0);
    } else if Answered(t, 1) {
      IdentifiedFrom(t, 0, 1);
    } else if Answered(t, 2) {
      IdentifiedFrom(t, 0, 2);
    } else {
      NotIdentified(t, 0);
    }
  }

  // ---------- Handling a device ----------

  /** The device answers, and the bridge is found, spawned and still there a second later. */
  predicate Works(t: Attempt) {
    (Answered(t, 0) || Answered(t, 1) || Answered(t, 2)) && t.found && t.spawns && t.survives
  }

  /** `device` is active with identity `id`, and a live bridge started for it at `now` serves it;
      no other bridge process lives. */
  ghost predicate ServesSince(s: State, device: string, id: DeviceId, now: nat) {
    && s.active == Some(Active(device, id.deviceType, id.format, id.bars, id.hasSysinfo))
    && s.bridge.Some? && s.bridge.value.device == device && s.bridge.value.id == id
    && s.live == {s.bridge.value} && s.startedAt == Some(now)
  }

  /** Nothing was brought up: no bridge lives, and the active device is the one before. */
  predicate NothingUp(before: State, after: State) {
    after.active == before.active && after.bridge == None && after.live == {}
  }

  /** Handling a device serves that device, with the identity it gave, exactly if the attempt works;
      otherwise the old bridge is gone and the active device is left as it was. */
  lemma HandledExactly(s: State, device: string, t: Attempt)
    requires Inv(s)
    ensures Works(t) ==>
              Identified(t, 0).Some? && ServesSince(Handle(s, device, t), device, Identified(t, 0).value, t.now)
    ensures !Works(t) ==> NothingUp(s, Handle(s, device, t))
  {
    IdentifiedByFirst(t);
    CleanUpKeeps(s);
  }

  lemma HandledIsWorks(t: Attempt)
    ensures Handled(t) <==> Works(t)
  {
    IdentifiedByFirst(t);
  }

  // ---------- Scans and hotplugs ----------

  /** Of the listed devices the first whose attempt works is the one served afterwards. */
  lemma {:induction false} FirstServed(s: State, devices: seq<string>, tries: seq<Attempt>, k: nat)
    requires Inv(s) && k < |devices| <= |tries|
    requires Works(tries[k]) && forall j :: 0 <= j < k ==> !Works(tries[j])
    ensures Identified(tries[k], 0).Some?
    ensures ServesSince(HandleFirst(s, devices, tries), devices[k], Identified(tries[k], 0).value, tries[k].now)
    decreases k
  {
    HandledIsWorks(tries[0]);
    if k == 0 {
      HandledExactly(s, devices[0], tries[0]);
    } else {
      HandleKeeps(s, devices[0], tries[0]);
      FirstServed(Handle(s, devices[0], tries[0]), devices[1..], tries[1..], k - 1);
    }
  }

  /** If none works, nothing is brought up; with no device listed nothing happens. */
  lemma {:induction false} NoneServed(s: State, devices: seq<string>, tries: seq<Attempt>)
    requires Inv(s) && |devices| <= |tries|
    requires forall j :: 0 <= j < |devices| ==> !Works(tries[j])
    ensures if devices == [] then HandleFirst(s, devices, tries) == s
            else NothingUp(s, HandleFirst(s, devices, tries))
    decreases |devices|
  {
    if devices != [] {
      HandledIsWorks(tries[0]);
      HandledExactly(s, devices[0], tries[0]);
      HandleKeeps(s, devices[0], tries[0]);
      NoneServed(Handle(s, devices[0], tries[0]), devices[1..], tries[1..]);
    }
  }

  // ---------- Health checks ----------

  /** An analyser is restarted: its bridge was started at least eight seconds ago, or never, and the
      analyser is down. */
  predicate AnalyserDown(s: State, v: Vitals) {
    && s.active.Some? && s.active.value.bridgeType == Cava && !v.cavaRuns
    && (s.startedAt == None || v.now - s.startedAt.value >= 8000)
  }

  /** What a health check leaves behind, in full: after the bridge's death its device is handled
      again; otherwise an analyser that is down and past its eight seconds of grace is restarted
      with the identity it had; otherwise nothing changes. */
  lemma CheckedExactly(s: State, v: Vitals, t: Attempt)
    requires Inv(s)
    ensures var after := Health(s, v, t);
            if s.bridge.Some? && s.bridge.value !in s.live then
              if Works(t) then
                s.active.Some? && Identified(t, 0).Some?
                && ServesSince(after, s.active.value.device, Identified(t, 0).value, t.now)
              else NothingUp(s, after)
            else if AnalyserDown(s, v) then
              if t.found && t.spawns && t.survives then
                ServesSince(after, s.active.value.device, s.active.value.Id(), t.now) && after.active == s.active
              else NothingUp(s, after)
            else after == s
  {
    CleanUpKeeps(s);
    if s.bridge.Some? && s.bridge.value !in s.live {
      HandledExactly(s.(bridge := None), s.active.value.device, t);
    }
  }

  /** After a check no dead bridge is held. */
  lemma CheckedBridgeLives(s: State, v: Vitals, t: Attempt)
    requires Inv(s)
    ensures Health(s, v, t).bridge.Some? ==> Health(s, v, t).bridge.value in Health(s, v, t).live
  {
    CheckedExactly(s, v, t);
  }

  // ---------- Polling cycles ----------

  /** The `i`-th listed device ends the cycle: it is the active one, or it answers. */
  predicate Ends(s: State, devices: seq<string>, visits: seq<Visit>, i: nat)
    requires i < |devices| <= |visits|
  {
    (s.active.Some? && s.active.value.device == devices[i]) || visits[i] == Answers
  }

  /** A polling cycle checks the active device if that comes first, handles the first device that
      answers if that comes first, and otherwise leaves nothing active and no bridge. */
  lemma PolledExactly(s: State, devices: seq<string>, visits: seq<Visit>, v: Vitals, t: Attempt)
    requires Inv(s) && |devices| <= |visits|
    ensures forall k :: 0 <= k < |devices| && Ends(s, devices, visits, k)
                        && (forall j :: 0 <= j < k ==> !Ends(s, devices, visits, j)) ==>
              Poll(s, devices, visits, v, t) ==
                if s.active.Some? && s.active.value.device == devices[k] then Health(s, v, t)
                else Handle(s, devices[k], t)
    ensures (forall k :: 0 <= k < |devices| ==> !Ends(s, devices, visits, k)) ==>
              Poll(s, devices, visits, v, t).active == None && Poll(s, devices, visits, v, t).bridge == None
              && Poll(s, devices, visits, v, t).live == {}
  {
    ReleaseKeeps(s);
    var n := StopsAt(s, devices, visits);
    assert n < |devices| ==> Ends(s, devices, visits, n);
    assert forall j :: 0 <= j < n ==> !Ends(s, devices, visits, j);
  }
}
