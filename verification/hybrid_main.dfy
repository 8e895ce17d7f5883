/** The main loop of the hybrid bridge: which worker threads it starts, the deferred start of the
    analyser, and the handles it gives to cleanup. */
module HybridMains {
  import opened Base
  import opened LockOrder

  datatype Supports = Supports(mpd: bool, cava: bool, sysinfo: bool)

  /** What one pass of the main loop meets: the stop flag, the threads that are finished by then,
      whether the loopback device is there, and whether a start of the analyser would work. */
  datatype Tick = Tick(signalled: bool, finished: set<Worker>, loopback: bool, startOk: bool)
  {
    predicate Starts() {
      loopback && startOk
    }
  }

  /** The worker threads started at once. */
  function AtOnce(supports: Supports, startOk: bool): (s: seq<Worker>)
    ensures forall w :: w in s <==>
      match w
      case MpdChecker => supports.mpd
      case CavaReader => supports.cava && startOk
      case CommandProcessor => true
      case SysinfoChecker => supports.sysinfo
    ensures NoRepeats(s)
  {
    (if supports.mpd then [MpdChecker] else [])
    + (if supports.cava && startOk then [CavaReader] else [])
    + [CommandProcessor]
    + (if supports.sysinfo then [SysinfoChecker] else [])
  }

  /** Some pass before `n` found the loopback device and started the analyser. */
  ghost predicate StartedBy(ticks: seq<Tick>, n: nat)
    requires n <= |ticks|
  {
    exists i :: 0 <= i < n && ticks[i].Starts()
  }

  /** The handles whose threads still run; `died` names a thread that does not. */
  method RetainRunning(handles: seq<Worker>, finished: set<Worker>) returns (kept: seq<Worker>, died: Option<Worker>)
    ensures forall w :: w in kept <==> w in handles && w !in finished
    ensures NoRepeats(handles) ==> NoRepeats(kept)
    ensures died == None ==> kept == handles
    ensures died.Some? ==> died.value in handles && died.value in finished
  {
    kept, died := [], None;
    for i := 0 to |handles|
      invariant forall w :: w in kept <==> w in handles[..i] && w !in finished
      invariant NoRepeats(handles) ==> NoRepeats(kept)
      invariant died == None ==> kept == handles[..i]
      invariant died.Some? ==> died.value in handles[..i] && died.value in finished
    {
      assert handles[..i + 1] == handles[..i] + [handles[i]];
      if handles[i] in finished {
        died := Some(handles[i]);
      } else {
        assert NoRepeats(handles) ==> handles[i] !in handles[..i];
        kept := kept + [handles[i]];
      }
    }
    assert handles[..|handles|] == handles;
  }

  class HybridMain {
    const supports: Supports
    var cavaDeferred: bool
    var stopRequested: bool
    var handles: seq<Worker>
    /** Every thread ever started, and those the loop has found finished. */
    ghost var spawned: seq<Worker>
    ghost var gone: set<Worker>

    /** The analyser is deferred exactly while its reader thread is due but not started; no
        thread is started twice; the handles are those of the threads not found finished. */
    ghost predicate Valid()
      reads this
    {
      && (cavaDeferred <==> supports.cava && CavaReader !in spawned)
      && (CavaReader in spawned ==> supports.cava)
      && NoRepeats(spawned) && NoRepeats(handles)
      && (forall w :: w in handles <==> w in spawned && w !in gone)
      && (forall w :: w in gone ==> w in spawned)
    }

    constructor (supports: Supports, startOk: bool)
      ensures Valid() && this.supports == supports
      ensures spawned == handles == AtOnce(supports, startOk) && gone == {} && !stopRequested
    {
      this.supports := supports;
      cavaDeferred := supports.cava && !startOk;
      stopRequested := false;
      handles := AtOnce(supports, startOk);
      spawned := AtOnce(supports, startOk);
      gone := {};
    }

    method TryDeferredStart(tick: Tick)
      requires Valid()
      modifies this`cavaDeferred, this`handles, this`spawned
      ensures Valid()
      ensures spawned == old(spawned) + if old(cavaDeferred) && tick.Starts() then [CavaReader] else []
      ensures CavaReader in spawned <==> supports.cava && (CavaReader in old(spawned) || tick.Starts())
    {
      if cavaDeferred && tick.loopback && tick.startOk {
        cavaDeferred := false;
        handles := handles + [CavaReader];
        spawned := spawned + [CavaReader];
      }
    }

    /** The loop. `passes` counts the passes made in full. */
    method Run(ticks: seq<Tick>) returns (passes: nat)
      requires Valid() && gone == {} && !stopRequested
      modifies this
      ensures Valid()
      ensures passes <= |ticks|
      // The reader was started if and only if some start worked while it was due.
      ensures CavaReader in spawned <==> supports.cava && (CavaReader in old(spawned) || StartedBy(ticks, passes))
      // The loop goes on until the stop flag is seen or a thread is found dead.
      ensures forall i :: 0 <= i < passes ==> !ticks[i].signalled
      ensures passes < |ticks| ==> ticks[passes].signalled || gone != {}
      // No pass is made in full over a dead thread.
      ensures forall i, w :: 0 <= i < passes && w in old(spawned) ==> w !in ticks[i].finished
      ensures forall i :: 0 <= i < passes && supports.cava && StartedBy(ticks, i) ==> CavaReader !in ticks[i].finished
      // A dead thread makes the bridge request a stop; cleanup is given every other thread.
      ensures stopRequested <==> gone != {}
      ensures gone != {} ==> passes < |ticks| && forall w :: w in gone <==> w in spawned && w in ticks[passes].finished
    {
      passes := 0;
      while passes < |ticks| && !ticks[passes].signalled
        invariant Valid() && gone == {} && !stopRequested
        invariant passes <= |ticks|
        invariant CavaReader in spawned <==> supports.cava && (CavaReader in old(spawned) || StartedBy(ticks, passes))
        invariant forall i :: 0 <= i < passes ==> !ticks[i].signalled
        invariant forall w :: w in old(spawned) ==> w in spawned
        invariant forall i, w :: 0 <= i < passes && w in old(spawned) ==> w !in ticks[i].finished
        invariant forall i :: 0 <= i < passes && supports.cava && StartedBy(ticks, i) ==>
                    CavaReader !in ticks[i].finished
      {
        var tick := ticks[passes];
        var kept, died := RetainRunning(handles, tick.finished);
        handles := kept;
        if died.Some? {
          gone := set w | w in spawned && w in tick.finished;
          assert died.value in gone;
          stopRequested := true;
          return;
        }
        TryDeferredStart(tick);
        passes := passes + 1;
      }
    }
  }
}
