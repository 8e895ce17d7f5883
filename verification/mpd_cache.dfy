/** What the player bridge remembers between commands: the last stop, and the playlist's length
    and playing time. */
module MpdCaches {
  import opened Base
  import opened MpdSongs

  // ---------- Stop commands ----------

  const REWIND_WINDOW_MS: nat := 3000

  /** A stop command, at its time, and whether it also rewound to the start of the playlist. */
  datatype Stop = Stop(time: nat, rewind: bool)

  /** A stop rewinds exactly when the stop before it was a plain one within the window. */
  ghost predicate Decided(stops: seq<Stop>) {
    forall i :: 0 <= i < |stops| ==> (stops[i].rewind <==> Follows(stops, i))
  }

  predicate Follows(stops: seq<Stop>, i: nat)
    requires i < |stops|
  {
    i > 0 && !stops[i - 1].rewind && stops[i].time - stops[i - 1].time <= REWIND_WINDOW_MS
  }

  function Rewinds(stops: seq<Stop>): nat {
    if stops == [] then 0 else Rewinds(stops[..|stops| - 1]) + if stops[|stops| - 1].rewind then 1 else 0
  }

  /** No two rewinds are adjacent, and there are at most as many rewinds as plain stops. */
  lemma {:induction false} RewindsPaired(stops: seq<Stop>)
    requires Decided(stops)
    ensures forall i :: 0 < i < |stops| ==> !(stops[i].rewind && stops[i - 1].rewind)
    ensures 2 * Rewinds(stops) <= |stops|
    decreases |stops|
  {
    if stops != [] {
      var last := |stops| - 1;
      var init := stops[..last];
      assert forall i :: 0 <= i < last ==> Follows(init, i) == Follows(stops, i);
      RewindsPaired(init);
      if stops[last].rewind {
        assert Follows(stops, last);
        assert !init[last - 1].rewind;
        var before := init[..last - 1];
        assert forall i :: 0 <= i < last - 1 ==> Follows(before, i) == Follows(stops, i);
        RewindsPaired(before);
      }
    }
  }

  datatype Command = PlayPosition(position: nat) | StopPlaying

  // ---------- Playlist time ----------

  /** The playing time of a list, in seconds; a song of unknown duration counts nothing. */
  function Total(songs: seq<Song>): nat {
    if songs == [] then 0
    else Total(songs[..|songs| - 1]) + match songs[|songs| - 1].duration case None => 0 case Some(d) => d
  }

  /** It is the sum over the songs. */
  lemma {:induction false} TotalSums(songs: seq<Song>, more: seq<Song>, s: Song)
    ensures Total(songs + more) == Total(songs) + Total(more)
    ensures Total([s]) == if s.duration.Some? then s.duration.value else 0
    decreases |more|
  {
    assert [s][..0] == [] && Total([]) == 0;
    if more == [] {
      assert songs + more == songs;
    } else {
      assert (songs + more)[..|songs + more| - 1] == songs + more[..|more| - 1];
      TotalSums(songs, more[..|more| - 1], s);
    }
  }

  datatype Fetch = Fetch(length: int, songs: seq<Song>)

  class Cache {
    var stopCount: nat
    var lastStop: Option<nat>
    var playlistTime: nat
    var playlistLength: int
    ghost var stops: seq<Stop>
    /** The last list fetched from the player. */
    ghost var fetched: Option<Fetch>

    ghost predicate Valid()
      reads this
    {
      && Decided(stops)
      && (stops == [] ==> stopCount == 0 && lastStop == None)
      && (stops != [] ==>
            var last := stops[|stops| - 1];
            && stopCount == (if last.rewind then 0 else 1)
            && (!last.rewind ==> lastStop == Some(last.time))
            && (lastStop.Some? ==> lastStop.value <= last.time))
      && (match fetched
          case None => playlistTime == 0 && playlistLength == -1
          case Some(f) => playlistTime == Total(f.songs) && playlistLength == f.length)
    }

    constructor ()
      ensures Valid() && stops == [] && fetched == None
    {
      stopCount, lastStop := 0, None;
      playlistTime, playlistLength := 0, -1;
      stops, fetched := [], None;
    }

    /** `seekOk` is the result of going to the first song, if that is asked of the player. */
    method HandleStop(now: nat, seekOk: bool) returns (commands: seq<Command>)
      requires Valid() && (stops != [] ==> now >= stops[|stops| - 1].time)
      modifies this
      ensures Valid() && fetched == old(fetched)
      ensures var n := |old(stops)|;
              var rewind := n > 0 && !old(stops)[n - 1].rewind && now - old(stops)[n - 1].time <= 3000;
              && stops == old(stops) + [Stop(now, rewind)]
              && commands == if !rewind then [StopPlaying]
                             else if seekOk then [PlayPosition(0), StopPlaying] else [PlayPosition(0)]
    {
      var recent := lastStop.Some? && now - lastStop.value <= REWIND_WINDOW_MS;
      if stopCount >= 1 && recent {
        stopCount := 0;
        stops := stops + [Stop(now, true)];
        commands := if seekOk then [PlayPosition(0), StopPlaying] else [PlayPosition(0)];
      } else {
        stopCount := 1;
        lastStop := Some(now);
        stops := stops + [Stop(now, false)];
        commands := [StopPlaying];
      }
    }

    /** `reply` is the player's list, if it answers when asked. The answer is the time of the list
        last fetched; a list is not fetched while the length stays the same and is positive, so
        the answer is the time of the player's list exactly when a fetch was made or the change of
        list since the last fetch left the time alone. */
    method CalculatePlaylistTime(length: int, reply: Option<seq<Song>>) returns (time: nat)
      requires Valid()
      modifies this
      ensures Valid() && stops == old(stops)
      ensures time == if fetched.Some? then Total(fetched.value.songs) else 0
      ensures var hit := length > 0 && old(fetched).Some? && old(fetched).value.length == length;
              && fetched == (if !hit && reply.Some? then Some(Fetch(length, reply.value)) else old(fetched))
              && (reply.Some? ==>
                    (time == Total(reply.value) <==> !hit || Total(old(fetched).value.songs) == Total(reply.value)))
    {
      if playlistLength == length && length > 0 {
        return playlistTime;
      }
      if reply == None {
        return playlistTime;
      }
      var total := 0;
      for i := 0 to |reply.value|
        invariant total == Total(reply.value[..i])
      {
        assert reply.value[..i + 1][..i] == reply.value[..i];
        if reply.value[i].duration.Some? {
          total := total + reply.value[i].duration.value;
        }
      }
      assert reply.value[..|reply.value|] == reply.value;
      playlistTime := total;
      playlistLength := length;
      fetched := Some(Fetch(length, reply.value));
      time := total;
    }
  }
}
