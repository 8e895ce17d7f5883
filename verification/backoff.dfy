/** Skip backoff: the hybrid bridge's frame skipping and the watcher's per-device cooldown. Both
    skip a number of turns that depends only on how many attempts have failed in a row. */
module Backoff {
  import opened Base

  // ---------- Traces ----------

  /** What became of one turn. An attempt made out of turn is not subject to skipping: the
      watcher handles a device that was just plugged in whatever its cooldown says. */
  datatype Outcome = Skipped | Failed(inTurn: bool) | Succeeded(inTurn: bool)
  {
    predicate OutOfTurn() {
      !Skipped? && !inTurn
    }
  }

  datatype Kind = Frames | Visits

  const MAX_FRAME_SKIP: nat := 8
  const COOLDOWN_FAILURE_THRESHOLD: nat := 3
  const COOLDOWN_INITIAL_SKIP: nat := 3
  const COOLDOWN_MAX_SKIP: nat := 30

  function Bound(kind: Kind): nat {
    if kind == Frames then MAX_FRAME_SKIP else COOLDOWN_MAX_SKIP
  }

  /** The turns to skip after `failures` straight failures, in closed form. */
  function Quota(kind: Kind, failures: nat): (r: nat)
    ensures r <= Bound(kind)
  {
    match kind
    case Frames => if failures == 0 then 0 else Min(Pow2(failures - 1), MAX_FRAME_SKIP)
    case Visits => if failures < 3 then 0 else Min(3 * Pow2(failures - 3), COOLDOWN_MAX_SKIP)
  }

  /** Failures since the last success among the first `n` events. */
  function FailStreak(trace: seq<Outcome>, n: nat): nat
    requires n <= |trace|
  {
    if n == 0 then 0
    else
      match trace[n - 1]
      case Succeeded(_) => 0
      case Failed(_) => FailStreak(trace, n - 1) + 1
      case Skipped => FailStreak(trace, n - 1)
  }

  /** Turns skipped since the last attempt. */
  function SkipRun(trace: seq<Outcome>, n: nat): nat
    requires n <= |trace|
  {
    if n == 0 || trace[n - 1] != Skipped then 0 else SkipRun(trace, n - 1) + 1
  }

  /** Event `n` is out of turn, or a turn that is skipped exactly while fewer turns have been
      skipped since the last attempt than the quota. */
  ghost predicate Fair(kind: Kind, trace: seq<Outcome>, n: nat)
    requires n < |trace|
  {
    trace[n].OutOfTurn() || (trace[n] == Skipped <==> SkipRun(trace, n) < Quota(kind, FailStreak(trace, n)))
  }

  ghost predicate Follows(kind: Kind, trace: seq<Outcome>) {
    forall n: nat :: n < |trace| ==> Fair(kind, trace, n)
  }

  lemma {:induction false} SamePrefix(trace: seq<Outcome>, o: Outcome, n: nat)
    requires n <= |trace|
    ensures FailStreak(trace + [o], n) == FailStreak(trace, n) && SkipRun(trace + [o], n) == SkipRun(trace, n)
  {
    if n > 0 {
      SamePrefix(trace, o, n - 1);
      assert (trace + [o])[n - 1] == trace[n - 1];
    }
  }

  lemma {:induction false} FairPrefix(kind: Kind, trace: seq<Outcome>, o: Outcome, n: nat)
    requires n < |trace|
    ensures Fair(kind, trace + [o], n) == Fair(kind, trace, n)
  {
    SamePrefix(trace, o, n);
    assert (trace + [o])[n] == trace[n];
  }

  lemma FairLast(kind: Kind, trace: seq<Outcome>, o: Outcome)
    requires o.OutOfTurn() || (o == Skipped <==> SkipRun(trace, |trace|) < Quota(kind, FailStreak(trace, |trace|)))
    ensures Fair(kind, trace + [o], |trace|)
  {
    SamePrefix(trace, o, |trace|);
    assert (trace + [o])[|trace|] == o;
  }

  /** One more event keeps the rule if it obeys it. */
  lemma Extend(kind: Kind, trace: seq<Outcome>, o: Outcome)
    requires Follows(kind, trace)
    requires o.OutOfTurn() || (o == Skipped <==> SkipRun(trace, |trace|) < Quota(kind, FailStreak(trace, |trace|)))
    ensures Follows(kind, trace + [o])
  {
    FairLast(kind, trace, o);
    forall n: nat | n < |trace| + 1
      ensures Fair(kind, trace + [o], n)
    {
      if n < |trace| {
        FairPrefix(kind, trace, o, n);
      }
    }
  }

  lemma ExtendCounts(trace: seq<Outcome>, o: Outcome)
    ensures FailStreak(trace + [o], |trace + [o]|) ==
            match o case Succeeded(_) => 0 case Failed(_) => FailStreak(trace, |trace|) + 1
                    case Skipped => FailStreak(trace, |trace|)
    ensures SkipRun(trace + [o], |trace + [o]|) == if o == Skipped then SkipRun(trace, |trace|) + 1 else 0
  {
    SamePrefix(trace, o, |trace|);
    assert (trace + [o])[|trace|] == o;
  }

  lemma {:induction false} SkipRunBounded(kind: Kind, trace: seq<Outcome>, n: nat)
    requires Follows(kind, trace) && n <= |trace|
    ensures SkipRun(trace, n) <= Bound(kind)
  {
    if n > 0 && trace[n - 1] == Skipped {
      assert Fair(kind, trace, n - 1);
    }
  }

  lemma {:induction false} AllSkippedRun(trace: seq<Outcome>, i: nat, n: nat)
    requires i <= n <= |trace| && forall k :: i <= k < n ==> trace[k] == Skipped
    ensures SkipRun(trace, n) >= n - i
    decreases n
  {
    if i < n {
      AllSkippedRun(trace, i, n - 1);
    }
  }

  /** Over every run, any 9 frames in a row and any 31 visits in a row include an attempt. */
  lemma AttemptInWindow(kind: Kind, trace: seq<Outcome>, i: nat)
    requires Follows(kind, trace) && i + Bound(kind) + 1 <= |trace|
    ensures Bound(Frames) + 1 == 9 && Bound(Visits) + 1 == 31
    ensures exists k :: i <= k < i + Bound(kind) + 1 && trace[k] != Skipped
  {
    if forall k :: i <= k < i + Bound(kind) + 1 ==> trace[k] == Skipped {
      AllSkippedRun(trace, i, i + Bound(kind) + 1);
      SkipRunBounded(kind, trace, i + Bound(kind) + 1);
    }
  }

  /** `d` turns after a failed attempt, as long as the quota is not used up. */
  lemma {:induction false} SkipsUsed(kind: Kind, trace: seq<Outcome>, p: nat, d: nat)
    requires Follows(kind, trace) && p + d < |trace| && trace[p].Failed?
    requires forall k :: p < k <= p + d ==> !trace[k].OutOfTurn()
    requires d <= Quota(kind, FailStreak(trace, p + 1))
    ensures FailStreak(trace, p + d + 1) == FailStreak(trace, p + 1)
    ensures SkipRun(trace, p + d + 1) == d
    ensures d > 0 ==> trace[p + d] == Skipped
    decreases d
  {
    if d > 0 {
      SkipsUsed(kind, trace, p, d - 1);
      assert Fair(kind, trace, p + d);
    }
  }

  /** A failed attempt is followed by exactly its quota of skipped turns: min(2^(j-1), 8) frames
      after the j-th straight failure, min(3 * 2^(f-3), 30) visits after the f-th for f >= 3 and
      none before; the turn after those is an attempt. Only an attempt made out of turn cuts the
      skipping short. */
  lemma {:induction false} ExactSkips(kind: Kind, trace: seq<Outcome>, p: nat, k: nat)
    requires Follows(kind, trace) && p < k < |trace| && trace[p].Failed?
    requires forall m :: p < m <= k ==> !trace[m].OutOfTurn()
    ensures k <= p + Quota(kind, FailStreak(trace, p + 1)) ==> trace[k] == Skipped
    ensures k == p + Quota(kind, FailStreak(trace, p + 1)) + 1 ==> trace[k] != Skipped
  {
    var quota := Quota(kind, FailStreak(trace, p + 1));
    if k <= p + quota {
      SkipsUsed(kind, trace, p, k - p);
    } else if k == p + quota + 1 {
      SkipsUsed(kind, trace, p, quota);
      assert Fair(kind, trace, k);
    }
  }

  // ---------- The frame skip of the hybrid bridge ----------

  class FrameSkip {
    var count: nat
    var remaining: nat
    ghost var trace: seq<Outcome>

    ghost predicate Valid()
      reads this
    {
      var quota := Quota(Frames, FailStreak(trace, |trace|));
      && Follows(Frames, trace)
      && count == quota
      && remaining + SkipRun(trace, |trace|) == quota
    }

    constructor ()
      ensures Valid() && trace == []
    {
      count := 0;
      remaining := 0;
      trace := [];
    }

    /** One frame of the reader loop; `sendOk` is the result of the send if there is one. */
    method Frame(sendOk: bool) returns (attempted: bool)
      requires Valid()
      modifies this
      ensures Valid()
      ensures trace == old(trace) + [if !attempted then Skipped else if sendOk then Succeeded(true) else Failed(true)]
    {
      ghost var next := if remaining > 0 then Skipped else if sendOk then Succeeded(true) else Failed(true);
      Extend(Frames, trace, next);
      ExtendCounts(trace, next);
      FrameDoubling(FailStreak(trace, |trace|));
      trace := trace + [next];
      if remaining > 0 {
        remaining := remaining - 1;
        return false;
      }
      if !sendOk {
        count := if count < 1 then 1 else Min(count * 2, MAX_FRAME_SKIP);
        remaining := count;
      } else {
        count := 0;
      }
      attempted := true;
    }
  }

  /** The saturating doubling of the skip count follows the closed form. */
  lemma FrameDoubling(f: nat)
    ensures Quota(Frames, f + 1) == if Quota(Frames, f) < 1 then 1 else Min(Quota(Frames, f) * 2, MAX_FRAME_SKIP)
  {
  }

  // ---------- The watcher's cooldown ----------

  datatype Cooldown = Cooldown(failures: nat, skipCycles: nat, skipRemaining: nat)

  function CooldownOf(cooldowns: map<string, Cooldown>, path: string): Cooldown {
    if path in cooldowns then cooldowns[path] else Cooldown(0, 0, 0)
  }

  function TraceOf(traces: map<string, seq<Outcome>>, path: string): seq<Outcome> {
    if path in traces then traces[path] else []
  }

  /** Between `before` and `after` only `path` has had an event, namely `o`. */
  ghost predicate OnlyEvent(before: map<string, seq<Outcome>>, after: map<string, seq<Outcome>>,
      path: string, o: Outcome)
  {
    && TraceOf(after, path) == TraceOf(before, path) + [o]
    && forall other :: other != path ==> TraceOf(after, other) == TraceOf(before, other)
  }

  /** `c` is where the events of `trace` leave a device's cooldown. */
  ghost predicate Tracks(c: Cooldown, trace: seq<Outcome>) {
    var f := FailStreak(trace, |trace|);
    && Follows(Visits, trace)
    && c.failures == f
    && c.skipCycles == Quota(Visits, f)
    && c.skipRemaining + SkipRun(trace, |trace|) == Quota(Visits, f)
  }

  function AfterFailure(c: Cooldown): Cooldown {
    var f := c.failures + 1;
    if f < COOLDOWN_FAILURE_THRESHOLD then c.(failures := f)
    else
      var s := if c.skipCycles < COOLDOWN_INITIAL_SKIP then COOLDOWN_INITIAL_SKIP
               else Min(c.skipCycles * 2, COOLDOWN_MAX_SKIP);
      Cooldown(f, s, s)
  }

  lemma VisitDoubling(f: nat)
    ensures Quota(Visits, f + 1) ==
            if f + 1 < COOLDOWN_FAILURE_THRESHOLD then 0
            else if Quota(Visits, f) < COOLDOWN_INITIAL_SKIP then COOLDOWN_INITIAL_SKIP
            else Min(Quota(Visits, f) * 2, COOLDOWN_MAX_SKIP)
  {
    if f >= 3 {
      assert Pow2(f - 2) == 2 * Pow2(f - 3);
    } else {
      assert Pow2(0) == 1;
    }
  }

  lemma SkipTracks(c: Cooldown, trace: seq<Outcome>)
    requires Tracks(c, trace) && c.skipRemaining > 0
    ensures Tracks(c.(skipRemaining := c.skipRemaining - 1), trace + [Skipped])
  {
    Extend(Visits, trace, Skipped);
    ExtendCounts(trace, Skipped);
  }

  lemma FailureTracks(c: Cooldown, trace: seq<Outcome>, inTurn: bool)
    requires Tracks(c, trace) && (inTurn ==> c.skipRemaining == 0)
    ensures Tracks(AfterFailure(c), trace + [Failed(inTurn)])
  {
    Extend(Visits, trace, Failed(inTurn));
    ExtendCounts(trace, Failed(inTurn));
    VisitDoubling(c.failures);
  }

  lemma SuccessTracks(c: Cooldown, trace: seq<Outcome>, inTurn: bool)
    requires Tracks(c, trace) && (inTurn ==> c.skipRemaining == 0)
    ensures Tracks(Cooldown(0, 0, 0), trace + [Succeeded(inTurn)])
  {
    Extend(Visits, trace, Succeeded(inTurn));
    ExtendCounts(trace, Succeeded(inTurn));
  }

  ghost predicate AllTrack(cooldowns: map<string, Cooldown>, traces: map<string, seq<Outcome>>) {
    forall path {:trigger CooldownOf(cooldowns, path)} :: Tracks(CooldownOf(cooldowns, path), TraceOf(traces, path))
  }

  /** The other devices are not affected by what happens to `path`. */
  lemma UpdateTracks(before: map<string, Cooldown>, after: map<string, Cooldown>, traces: map<string, seq<Outcome>>,
      path: string, trace: seq<Outcome>)
    requires AllTrack(before, traces)
    requires Tracks(CooldownOf(after, path), trace)
    requires forall p :: p != path ==> CooldownOf(after, p) == CooldownOf(before, p)
    ensures AllTrack(after, traces[path := trace])
  {
    forall p
      ensures Tracks(CooldownOf(after, p), TraceOf(traces[path := trace], p))
    {
      assert p != path ==> TraceOf(traces[path := trace], p) == TraceOf(traces, p);
      assert Tracks(CooldownOf(before, p), TraceOf(traces, p));
    }
  }

  class Cooldowns {
    var cooldowns: map<string, Cooldown>
    /** The events of each device since it was last forgotten. */
    ghost var traces: map<string, seq<Outcome>>

    ghost predicate Valid()
      reads this
    {
      AllTrack(cooldowns, traces)
    }

    constructor ()
      ensures Valid() && traces == map[]
    {
      cooldowns := map[];
      traces := map[];
    }

    /** A device comes up in a polling cycle: it is skipped exactly while its quota lasts. */
    method ShouldSkip(path: string) returns (skip: bool)
      requires Valid()
      modifies this
      ensures Valid()
      ensures skip <==> CooldownOf(old(cooldowns), path).skipRemaining > 0
      ensures if skip then OnlyEvent(old(traces), traces, path, Skipped)
              else cooldowns == old(cooldowns) && traces == old(traces)
    {
      ghost var trace := TraceOf(traces, path);
      assert Tracks(CooldownOf(cooldowns, path), trace);
      if path in cooldowns {
        var c := cooldowns[path];
        if c.skipRemaining > 0 {
          SkipTracks(c, trace);
          cooldowns := cooldowns[path := c.(skipRemaining := c.skipRemaining - 1)];
          UpdateTracks(old(cooldowns), cooldowns, traces, path, trace + [Skipped]);
          traces := traces[path := trace + [Skipped]];
          return true;
        }
      }
      skip := false;
    }

    method RecordFailure(path: string, ghost inTurn: bool)
      requires Valid() && (inTurn ==> CooldownOf(cooldowns, path).skipRemaining == 0)
      modifies this
      ensures Valid() && OnlyEvent(old(traces), traces, path, Failed(inTurn))
    {
      ghost var trace := TraceOf(traces, path);
      var c := CooldownOf(cooldowns, path);
      FailureTracks(c, trace, inTurn);
      ghost var before := c;
      c := c.(failures := c.failures + 1);
      if c.failures >= COOLDOWN_FAILURE_THRESHOLD {
        var cycles := if c.skipCycles < COOLDOWN_INITIAL_SKIP then COOLDOWN_INITIAL_SKIP
                      else Min(c.skipCycles * 2, COOLDOWN_MAX_SKIP);
        c := c.(skipCycles := cycles, skipRemaining := cycles);
      }
      assert c == AfterFailure(before);
      cooldowns := cooldowns[path := c];
      UpdateTracks(old(cooldowns), cooldowns, traces, path, trace + [Failed(inTurn)]);
      traces := traces[path := trace + [Failed(inTurn)]];
    }

    method RecordSuccess(path: string, ghost inTurn: bool)
      requires Valid() && (inTurn ==> CooldownOf(cooldowns, path).skipRemaining == 0)
      modifies this
      ensures Valid() && OnlyEvent(old(traces), traces, path, Succeeded(inTurn))
    {
      ghost var trace := TraceOf(traces, path);
      SuccessTracks(CooldownOf(cooldowns, path), trace, inTurn);
      if path in cooldowns {
        cooldowns := cooldowns[path := Cooldown(0, 0, 0)];
      }
      UpdateTracks(old(cooldowns), cooldowns, traces, path, trace + [Succeeded(inTurn)]);
      traces := traces[path := trace + [Succeeded(inTurn)]];
    }

    method Remove(path: string)
      requires Valid()
      modifies this
      ensures Valid()
      ensures traces == old(traces) - {path}
    {
      cooldowns := cooldowns - {path};
      UpdateTracks(old(cooldowns), cooldowns, traces, path, []);
      traces := traces - {path};
      assert forall p :: TraceOf(traces, p) == TraceOf(old(traces)[path := []], p);
    }
  }
}
