/** Lines rebuilt from arbitrary read chunks, as both copies of readline do it. */
module LineReaders {
  import opened Base

  const LINE_LIMIT: nat := 4096
  const CHUNK_SIZE: nat := 256

  /** One turn of the loop: what read(2) delivered, or the end of waiting (the deadline has
      passed, the poll timed out or failed, or the read returned nothing). */
  datatype Event = Chunk(bytes: seq<byte>) | Quiet

  predicate ValidEvent(e: Event) {
    e.Chunk? ==> 0 < |e.bytes| <= CHUNK_SIZE
  }

  ghost predicate ValidEvents(events: seq<Event>) {
    forall e :: e in events ==> ValidEvent(e)
  }

  function StripCr(s: seq<byte>): seq<byte> {
    if s == [] then []
    else (if s[0] == CARRIAGE_RETURN then [] else [s[0]]) + StripCr(s[1..])
  }

  lemma {:induction false} StripCrClean(s: seq<byte>)
    ensures |StripCr(s)| <= |s| && CARRIAGE_RETURN !in StripCr(s)
  {
    if s != [] {
      StripCrClean(s[1..]);
    }
  }

  lemma {:induction false} StripCrConcat(s: seq<byte>, t: seq<byte>)
    ensures StripCr(s + t) == StripCr(s) + StripCr(t)
  {
    if s == [] {
      assert s + t == t;
      assert StripCr(s) + StripCr(t) == StripCr(t);
    } else {
      var head := if s[0] == CARRIAGE_RETURN then [] else [s[0]];
      assert (s + t)[1..] == s[1..] + t;
      StripCrConcat(s[1..], t);
      assert StripCr(s + t) == head + (StripCr(s[1..]) + StripCr(t));
    }
  }

  lemma {:induction false} StripCrNoop(s: seq<byte>)
    requires CARRIAGE_RETURN !in s
    ensures StripCr(s) == s
  {
    if s != [] {
      assert s[0] in s;
      StripCrNoop(s[1..]);
    }
  }

  /** The buffer when the loop ends and the number of events it has used. */
  function Collect(buf: seq<byte>, events: seq<Event>): (seq<byte>, nat)
    decreases |events|
  {
    if FindNewline(buf) < |buf| then (buf[..FindNewline(buf)], 0)
    else if events == [] || events[0].Quiet? then (buf, 0)
    else
      var more := buf + StripCr(events[0].bytes);
      if |more| > LINE_LIMIT then (more, 1)
      else
        var (r, used) := Collect(more, events[1..]);
        (r, used + 1)
  }

  /** The loop has used `used` events and holds `buf`: the rest of the collecting starts there. */
  ghost predicate Progress(events: seq<Event>, buf: seq<byte>, used: nat) {
    && used <= |events|
    && Collect([], events) == (Collect(buf, events[used..]).0, used + Collect(buf, events[used..]).1)
  }

  lemma ProgressStarts(events: seq<Event>)
    ensures Progress(events, [], 0)
  {
    assert events[0..] == events;
  }

  lemma ProgressStops(events: seq<Event>, buf: seq<byte>, used: nat)
    requires Progress(events, buf, used)
    ensures FindNewline(buf) < |buf| ==> Collect([], events) == (buf[..FindNewline(buf)], used)
    ensures FindNewline(buf) == |buf| && (used == |events| || events[used].Quiet?) ==>
              Collect([], events) == (buf, used)
  {
  }

  lemma ProgressReads(events: seq<Event>, buf: seq<byte>, used: nat)
    requires Progress(events, buf, used) && FindNewline(buf) == |buf| && used < |events| && events[used].Chunk?
    ensures var more := buf + StripCr(events[used].bytes);
            if |more| > LINE_LIMIT then Collect([], events) == (more, used + 1) else Progress(events, more, used + 1)
  {
    assert events[used..][1..] == events[used + 1..];
  }

  /** The loop of readline; `peak` is the longest the buffer has been. */
  method CollectLine(events: seq<Event>) returns (buf: seq<byte>, used: nat, ghost peak: nat)
    requires ValidEvents(events)
    ensures Collect([], events) == (buf, used) && used <= |events| && CARRIAGE_RETURN !in buf
    ensures peak <= LINE_LIMIT + CHUNK_SIZE
  {
    buf, used, peak := [], 0, 0;
    ProgressStarts(events);
    while true
      invariant Progress(events, buf, used)
      invariant |buf| <= LINE_LIMIT && CARRIAGE_RETURN !in buf
      invariant peak <= LINE_LIMIT + CHUNK_SIZE
      decreases |events| - used
    {
      ProgressStops(events, buf, used);
      var pos := FindNewline(buf);
      if pos < |buf| {
        buf := buf[..pos];
        return;
      }
      if used == |events| || events[used].Quiet? {
        return;
      }
      assert ValidEvent(events[used]);
      ProgressReads(events, buf, used);
      StripCrClean(events[used].bytes);
      buf := buf + StripCr(events[used].bytes);
      used := used + 1;
      peak := if |buf| > peak then |buf| else peak;
      if |buf| > LINE_LIMIT {
        return;
      }
    }
  }

  // ---------- Independence of chunking ----------

  ghost predicate AllChunks(events: seq<Event>, k: nat) {
    k <= |events| && forall i :: 0 <= i < k ==> events[i].Chunk?
  }

  /** The bytes of the first `k` events, up to a pause. */
  ghost function Bytes(events: seq<Event>, k: nat): seq<byte> {
    if k == 0 || events == [] || events[0].Quiet? then [] else events[0].bytes + Bytes(events[1..], k - 1)
  }

  lemma BytesStep(events: seq<Event>, k: nat)
    requires 0 < k && AllChunks(events, k)
    ensures Bytes(events, k) == events[0].bytes + Bytes(events[1..], k - 1)
    ensures StripCr(Bytes(events, k)) == StripCr(events[0].bytes) + StripCr(Bytes(events[1..], k - 1))
  {
    StripCrConcat(events[0].bytes, Bytes(events[1..], k - 1));
  }

  predicate HasNewline(s: seq<byte>) {
    FindNewline(s) < |s|
  }

  lemma PrefixHasNoNewline(s: seq<byte>, t: seq<byte>)
    requires HasNewline(s + t)
    ensures HasNewline(s) <==> FindNewline(s + t) < |s|
  {
    assert forall i :: 0 <= i < |s| ==> (s + t)[i] == s[i];
    if FindNewline(s + t) < |s| {
      FindNewlineUnique(s, FindNewline(s + t));
    }
  }

  /** The buffer once the first `j` chunks have been appended to `buf`. */
  ghost function Filled(buf: seq<byte>, events: seq<Event>, j: nat): seq<byte> {
    buf + StripCr(Bytes(events, j))
  }

  // ---------- What the loop collects ----------

  /** After `j` chunks the loop reads on: there is no newline yet and the limit is not passed. */
  ghost predicate GoesOn(buf: seq<byte>, events: seq<Event>, j: nat) {
    !HasNewline(Filled(buf, events, j)) && |Filled(buf, events, j)| <= LINE_LIMIT
  }

  /** The loop stops after `k` chunks: it reads on before, and then there is nothing more to wait
      for, or a newline has come, or the limit is passed. */
  ghost predicate StopsAfter(buf: seq<byte>, events: seq<Event>, k: nat) {
    && AllChunks(events, k)
    && (forall j: nat :: j < k ==> GoesOn(buf, events, j))
    && (k == |events| || events[k].Quiet? || !GoesOn(buf, events, k))
  }

  /** What it holds then: all there is once the limit is passed, and otherwise the bytes before the
      newline, or all there is when waiting has ended. */
  ghost function TextAt(buf: seq<byte>, events: seq<Event>, k: nat): seq<byte> {
    var all := Filled(buf, events, k);
    if |all| > LINE_LIMIT then all else FirstLine(all)
  }

  /** The loop in closed form, however the stream is cut and whenever it pauses. */
  lemma {:induction false} CollectsExactly(buf: seq<byte>, events: seq<Event>)
    requires |buf| <= LINE_LIMIT
    ensures var (text, used) := Collect(buf, events);
            StopsAfter(buf, events, used) && text == TextAt(buf, events, used)
    decreases |events|
  {
    if HasNewline(buf) || events == [] || events[0].Quiet? {
      assert Filled(buf, events, 0) == buf;
    } else {
      var more := buf + StripCr(events[0].bytes);
      FilledStep(buf, events, 1);
      if |more| > LINE_LIMIT {
        assert Filled(buf, events, 1) == more && Filled(buf, events, 0) == buf;
      } else {
        CollectsExactly(more, events[1..]);
        StopsLater(buf, events, Collect(more, events[1..]).1);
      }
    }
  }

  lemma StopsLater(buf: seq<byte>, events: seq<Event>, k: nat)
    requires events != [] && events[0].Chunk? && !HasNewline(buf) && |buf| <= LINE_LIMIT
    requires StopsAfter(buf + StripCr(events[0].bytes), events[1..], k)
    ensures StopsAfter(buf, events, k + 1)
    ensures TextAt(buf, events, k + 1) == TextAt(buf + StripCr(events[0].bytes), events[1..], k)
  {
    assert AllChunks(events, k + 1);
    FilledStep(buf, events, k + 1);
    forall j: nat | j < k + 1
      ensures GoesOn(buf, events, j)
    {
      if j == 0 {
        assert Filled(buf, events, 0) == buf;
      } else {
        FilledStep(buf, events, j);
        assert GoesOn(buf + StripCr(events[0].bytes), events[1..], j - 1);
      }
    }
  }

  /** Both copies of readline: the text collected is handed back unless it is empty or not UTF-8.
      One of them filters carriage returns once more at the end, which changes nothing: the result
      does not depend on `retain`. The buffer never grows past the limit by more than one chunk. */
  method ReadLine(events: seq<Event>, retain: bool, isUtf8: seq<byte> -> bool)
    returns (line: Option<seq<byte>>, used: nat, ghost peak: nat)
    requires ValidEvents(events)
    ensures StopsAfter([], events, used) && used == Collect([], events).1
    ensures var text := TextAt([], events, used);
            line == if text != [] && isUtf8(text) then Some(text) else None
    ensures forall k :: Arrives(events, k) ==>
              var text := FirstLine(Filled([], events, k));
              used == k && line == if text != [] && isUtf8(text) then Some(text) else None
    ensures peak <= LINE_LIMIT + CHUNK_SIZE
  {
    var buf: seq<byte>;
    buf, used, peak := CollectLine(events);
    CollectsExactly([], events);
    if retain {
      StripCrNoop(buf);
      buf := StripCr(buf);
    }
    line := if buf == [] || !isUtf8(buf) then None else Some(buf);
    forall k: nat | Arrives(events, k)
      ensures Collect([], events) == (FirstLine(Filled([], events, k)), k)
    {
      CallReads(events, k);
    }
  }

  // ---------- Lines that arrive ----------

  /** The first newline arrives with the chunk at position `k - 1`, before any pause. */
  ghost predicate LineArrives(buf: seq<byte>, events: seq<Event>, k: nat) {
    && 0 < k && AllChunks(events, k)
    && HasNewline(Filled(buf, events, k))
    && !HasNewline(Filled(buf, events, k - 1))
  }

  lemma FilledStep(buf: seq<byte>, events: seq<Event>, j: nat)
    requires 0 < j && AllChunks(events, j)
    ensures Filled(buf, events, j) == Filled(buf + StripCr(events[0].bytes), events[1..], j - 1)
    ensures Filled(buf, events, 0) == buf
  {
    BytesStep(events, j);
  }

  lemma ArrivesLater(buf: seq<byte>, events: seq<Event>, k: nat)
    requires LineArrives(buf, events, k) && k > 1
    ensures LineArrives(buf + StripCr(events[0].bytes), events[1..], k - 1)
  {
    FilledStep(buf, events, k);
    FilledStep(buf, events, k - 1);
  }

  lemma NewlineComesLater(buf: seq<byte>, events: seq<Event>, k: nat)
    requires LineArrives(buf, events, k) && k > 1
    ensures var all := Filled(buf, events, k);
            |buf + StripCr(events[0].bytes)| <= FindNewline(all) < |all|
  {
    var more := buf + StripCr(events[0].bytes);
    FilledStep(buf, events, k);
    ArrivesLater(buf, events, k);
    BufferHasNone(more, events[1..], k - 1);
    PrefixHasNoNewline(more, StripCr(Bytes(events[1..], k - 1)));
  }

  /** The `j`-th chunk takes the buffer over the limit and to exactly `p` bytes. */
  ghost predicate CutAt(buf: seq<byte>, events: seq<Event>, j: nat, p: nat)
    requires 0 < j
  {
    |Filled(buf, events, j - 1)| <= LINE_LIMIT < |Filled(buf, events, j)| == p
  }

  /** With `p` the position of the newline: the line is longer than the limit and the chunk that
      takes the buffer over the limit ends just before the newline. */
  ghost predicate CutBefore(buf: seq<byte>, events: seq<Event>, k: nat, p: nat) {
    exists j: nat :: 0 < j < k && CutAt(buf, events, j, p)
  }

  lemma CutAtStep(buf: seq<byte>, events: seq<Event>, j: nat, p: nat)
    requires 1 < j && AllChunks(events, j)
    ensures AllChunks(events[1..], j - 1)
    ensures CutAt(buf, events, j, p) <==> CutAt(buf + StripCr(events[0].bytes), events[1..], j - 1, p)
  {
    FilledStep(buf, events, j);
    FilledStep(buf, events, j - 1);
  }

  lemma CutAtOne(buf: seq<byte>, events: seq<Event>, p: nat)
    requires AllChunks(events, 1)
    ensures CutAt(buf, events, 1, p) <==> |buf| <= LINE_LIMIT < |buf + StripCr(events[0].bytes)| == p
  {
    FilledStep(buf, events, 1);
  }

  lemma CutLater(buf: seq<byte>, events: seq<Event>, k: nat, p: nat)
    requires k > 1 && AllChunks(events, k) && AllChunks(events[1..], k - 1)
    requires |buf + StripCr(events[0].bytes)| <= LINE_LIMIT
    ensures CutBefore(buf, events, k, p) <==> CutBefore(buf + StripCr(events[0].bytes), events[1..], k - 1, p)
  {
    var more := buf + StripCr(events[0].bytes);
    if CutBefore(buf, events, k, p) {
      var j: nat :| 0 < j < k && CutAt(buf, events, j, p);
      CutAtOne(buf, events, p);
      CutAtStep(buf, events, j, p);
      assert CutAt(more, events[1..], j - 1, p);
    }
    if CutBefore(more, events[1..], k - 1, p) {
      var j: nat :| 0 < j < k - 1 && CutAt(more, events[1..], j, p);
      CutAtStep(buf, events, j + 1, p);
      assert CutAt(buf, events, j + 1, p);
    }
  }

  lemma CutNow(buf: seq<byte>, events: seq<Event>, k: nat, p: nat)
    requires k > 1 && AllChunks(events, k) && |buf| <= LINE_LIMIT
    requires |buf + StripCr(events[0].bytes)| > LINE_LIMIT
    ensures CutBefore(buf, events, k, p) <==> |buf + StripCr(events[0].bytes)| == p
  {
    var more := buf + StripCr(events[0].bytes);
    CutAtOne(buf, events, p);
    if |more| == p {
      assert CutAt(buf, events, 1, p);
    }
    if CutBefore(buf, events, k, p) {
      var j: nat :| 0 < j < k && CutAt(buf, events, j, p);
      if j > 1 {
        FilledStep(buf, events, j - 1);
      }
    }
  }

  lemma LineReturnedAtOnce(buf: seq<byte>, events: seq<Event>)
    requires LineArrives(buf, events, 1) && |buf| <= LINE_LIMIT
    ensures var all := Filled(buf, events, 1);
            && (Collect(buf, events).0 == all[..FindNewline(all)] <==> |all| <= LINE_LIMIT)
            && (|all| <= LINE_LIMIT ==> Collect(buf, events).1 == 1)
  {
    var all := Filled(buf, events, 1);
    FilledStep(buf, events, 1);
    assert all == buf + StripCr(events[0].bytes);
    BufferHasNone(buf, events, 1);
    if |all| <= LINE_LIMIT {
      assert Collect(all, events[1..]) == (all[..FindNewline(all)], 0);
    }
  }

  /** What `LineReturned` claims of one state of the loop. */
  ghost predicate ReturnsExactly(buf: seq<byte>, events: seq<Event>, k: nat) {
    var all := Filled(buf, events, k);
    && ((Collect(buf, events).0 == all[..FindNewline(all)])
        == (|all| <= LINE_LIMIT || CutBefore(buf, events, k, FindNewline(all))))
    && (|all| <= LINE_LIMIT ==> Collect(buf, events).1 == k)
  }

  lemma ReturnsStep(buf: seq<byte>, events: seq<Event>, k: nat)
    requires k > 1 && AllChunks(events, k)
    requires |buf + StripCr(events[0].bytes)| <= LINE_LIMIT
    requires ReturnsExactly(buf + StripCr(events[0].bytes), events[1..], k - 1)
    requires var (r, used) := Collect(buf + StripCr(events[0].bytes), events[1..]);
             Collect(buf, events) == (r, used + 1)
    ensures ReturnsExactly(buf, events, k)
  {
    FilledStep(buf, events, k);
    CutLater(buf, events, k, FindNewline(Filled(buf, events, k)));
  }

  lemma ReturnsAtOnce(buf: seq<byte>, events: seq<Event>, k: nat)
    requires LineArrives(buf, events, k) && k == 1 && |buf| <= LINE_LIMIT
    ensures ReturnsExactly(buf, events, k)
  {
    LineReturnedAtOnce(buf, events);
  }

  lemma ReturnsOverflowed(buf: seq<byte>, events: seq<Event>, k: nat)
    requires LineArrives(buf, events, k) && k > 1 && |buf| <= LINE_LIMIT
    requires |buf + StripCr(events[0].bytes)| > LINE_LIMIT
    ensures ReturnsExactly(buf, events, k)
  {
    CollectStep(buf, events, k);
    LineOverflows(buf, events, k);
  }

  lemma ReturnsLater(buf: seq<byte>, events: seq<Event>, k: nat)
    requires LineArrives(buf, events, k) && k > 1
    requires |buf + StripCr(events[0].bytes)| <= LINE_LIMIT
    requires ReturnsExactly(buf + StripCr(events[0].bytes), events[1..], k - 1)
    ensures ReturnsExactly(buf, events, k)
  {
    CollectStep(buf, events, k);
    ReturnsStep(buf, events, k);
  }

  lemma {:induction false} LoopReturns(buf: seq<byte>, events: seq<Event>, k: nat)
    requires LineArrives(buf, events, k) && |buf| <= LINE_LIMIT
    ensures ReturnsExactly(buf, events, k)
    decreases k
  {
    var more := buf + StripCr(events[0].bytes);
    if k == 1 {
      ReturnsAtOnce(buf, events, k);
    } else if |more| > LINE_LIMIT {
      ReturnsOverflowed(buf, events, k);
    } else {
      ArrivesLater(buf, events, k);
      LoopReturns(more, events[1..], k - 1);
      ReturnsLater(buf, events, k);
    }
  }

  /** The exact condition: a line whose newline arrives before any pause is returned, without
      its carriage returns, if and only if the buffer holds at most 4096 bytes once the chunk
      with the newline has been appended, or the chunk that takes it over the limit happens to
      end just before the newline. */
  lemma LineReturned(events: seq<Event>, k: nat)
    requires LineArrives([], events, k)
    ensures var all := Filled([], events, k);
            && (Collect([], events).0 == all[..FindNewline(all)]
                <==> |all| <= LINE_LIMIT || CutBefore([], events, k, FindNewline(all)))
            && (|all| <= LINE_LIMIT ==> Collect([], events).1 == k)
  {
    LoopReturns([], events, k);
  }

  lemma CollectStep(buf: seq<byte>, events: seq<Event>, k: nat)
    requires LineArrives(buf, events, k)
    ensures var more := buf + StripCr(events[0].bytes);
            Collect(buf, events) == if |more| > LINE_LIMIT then (more, 1)
                                    else (Collect(more, events[1..]).0, Collect(more, events[1..]).1 + 1)
  {
    BufferHasNone(buf, events, k);
  }

  lemma LineOverflows(buf: seq<byte>, events: seq<Event>, k: nat)
    requires LineArrives(buf, events, k) && k > 1 && |buf| <= LINE_LIMIT
    requires |buf + StripCr(events[0].bytes)| > LINE_LIMIT
    ensures var all, more := Filled(buf, events, k), buf + StripCr(events[0].bytes);
            && |all| > LINE_LIMIT
            && (more == all[..FindNewline(all)] <==> CutBefore(buf, events, k, FindNewline(all)))
  {
    var all, more := Filled(buf, events, k), buf + StripCr(events[0].bytes);
    NewlineComesLater(buf, events, k);
    FilledStep(buf, events, k);
    CutNow(buf, events, k, FindNewline(all));
    assert all == more + StripCr(Bytes(events[1..], k - 1));
    assert all[..|more|] == more;
  }

  lemma BufferHasNone(buf: seq<byte>, events: seq<Event>, k: nat)
    requires LineArrives(buf, events, k)
    ensures !HasNewline(buf)
  {
    var rest := StripCr(Bytes(events, k - 1));
    assert forall i :: 0 <= i < |buf| ==> (buf + rest)[i] == buf[i];
    if HasNewline(buf) {
      FindNewlineUnique(buf + rest, FindNewline(buf));
    }
  }

  /** Independence of chunking: two ways of cutting the same byte stream into reads give the same
      line, the bytes before the first newline without carriage returns, whenever the buffers stay
      within the limit. */
  lemma ChunkingIndependent(events: seq<Event>, k: nat, other: seq<Event>, m: nat)
    requires LineArrives([], events, k) && |Filled([], events, k)| <= LINE_LIMIT
    requires LineArrives([], other, m) && |Filled([], other, m)| <= LINE_LIMIT
    requires Bytes(events, k) <= Bytes(other, m) || Bytes(other, m) <= Bytes(events, k)
    ensures Collect([], events).0 == Collect([], other).0 == FirstLine(Filled([], events, k))
  {
    LineReturned(events, k);
    LineReturned(other, m);
    assert Filled([], events, k) == StripCr(Bytes(events, k)) && Filled([], other, m) == StripCr(Bytes(other, m));
    if Bytes(events, k) <= Bytes(other, m) {
      SameFirstLine(Bytes(events, k), Bytes(other, m));
    } else {
      SameFirstLine(Bytes(other, m), Bytes(events, k));
    }
  }

  lemma SameFirstLine(s: seq<byte>, t: seq<byte>)
    requires s <= t && HasNewline(StripCr(s))
    ensures var a, b := StripCr(s), StripCr(t); a[..FindNewline(a)] == b[..FindNewline(b)]
  {
    assert t == s + t[|s|..];
    StripCrConcat(s, t[|s|..]);
    var a, b := StripCr(s), StripCr(t);
    assert forall i :: 0 <= i < |a| ==> b[i] == a[i];
    FindNewlineUnique(b, FindNewline(a));
  }

  // ---------- Lines in a row ----------

  /** The bytes before the first newline. */
  function FirstLine(w: seq<byte>): seq<byte> {
    w[..FindNewline(w)]
  }

  /** What follows the first newline. */
  function AfterLine(w: seq<byte>): seq<byte> {
    if HasNewline(w) then w[FindNewline(w) + 1..] else []
  }

  /** The first `n` lines of a byte stream. */
  function Lines(w: seq<byte>, n: nat): (lines: seq<seq<byte>>)
    ensures |lines| == n
    decreases n
  {
    if n == 0 then [] else [FirstLine(w)] + Lines(AfterLine(w), n - 1)
  }

  /** What `n` calls of readline collect, each starting where the one before stopped reading. */
  function Calls(events: seq<Event>, n: nat): seq<seq<byte>>
    decreases n
  {
    if n == 0 then []
    else
      var (line, used) := Collect([], events);
      [line] + Calls(if used <= |events| then events[used..] else [], n - 1)
  }

  /** The line of the next call arrives whole with the first `k` chunks, within the limit. */
  ghost predicate Arrives(events: seq<Event>, k: nat) {
    LineArrives([], events, k) && |Filled([], events, k)| <= LINE_LIMIT
  }

  /** What the chunk that ends the line brings beyond its newline; the call drops it. */
  ghost function Dropped(events: seq<Event>, k: nat): seq<byte> {
    AfterLine(Filled([], events, k))
  }

  /** The lines of successive calls arrive so, with `ks[i]` chunks for the i-th. */
  ghost predicate ArriveInTurn(events: seq<Event>, ks: seq<nat>)
    decreases |ks|
  {
    ks != [] ==> Arrives(events, ks[0]) && ArriveInTurn(events[ks[0]..], ks[1..])
  }

  ghost function Total(ks: seq<nat>): nat {
    if ks == [] then 0 else ks[0] + Total(ks[1..])
  }

  /** No line but the last is followed by anything in the chunk that ends it. */
  ghost predicate NothingDropped(events: seq<Event>, ks: seq<nat>)
    requires ArriveInTurn(events, ks)
    decreases |ks|
  {
    |ks| > 1 ==> Dropped(events, ks[0]) == [] && NothingDropped(events[ks[0]..], ks[1..])
  }

  /** No line but the last shares the chunk that ends it with a second newline. */
  ghost predicate OneNewlineEach(events: seq<Event>, ks: seq<nat>)
    requires ArriveInTurn(events, ks)
    decreases |ks|
  {
    |ks| > 1 ==> !HasNewline(Dropped(events, ks[0])) && OneNewlineEach(events[ks[0]..], ks[1..])
  }

  lemma CallReads(events: seq<Event>, k: nat)
    requires Arrives(events, k)
    ensures Collect([], events) == (FirstLine(Filled([], events, k)), k) && k <= |events|
  {
    LineReturned(events, k);
  }

  lemma FirstLineOf(w: seq<byte>, more: seq<byte>)
    requires HasNewline(w)
    ensures HasNewline(w + more) && FirstLine(w + more) == FirstLine(w) && AfterLine(w + more) == AfterLine(w) + more
  {
    var p := FindNewline(w);
    assert forall i :: 0 <= i < |w| ==> (w + more)[i] == w[i];
    FindNewlineUnique(w + more, p);
    assert (w + more)[..p] == w[..p];
  }

  lemma FirstLineJoins(w: seq<byte>, more: seq<byte>)
    requires !HasNewline(w) && HasNewline(more)
    ensures HasNewline(w + more) && FirstLine(w + more) == w + FirstLine(more)
  {
    var p := |w| + FindNewline(more);
    assert forall i :: 0 <= i < |w| ==> (w + more)[i] == w[i];
    assert forall i :: |w| <= i < p ==> (w + more)[i] == more[i - |w|];
    FindNewlineUnique(w + more, p);
    assert (w + more)[..p] == w + more[..p - |w|];
  }

  /** The stream cut after its first `k` events. */
  lemma {:induction false} BytesSplit(events: seq<Event>, k: nat, m: nat)
    requires AllChunks(events, k)
    ensures Bytes(events, k + m) == Bytes(events, k) + Bytes(events[k..], m)
    decreases k
  {
    if k == 0 {
      assert events[0..] == events;
    } else {
      BytesSplit(events[1..], k - 1, m);
      assert events[1..][k - 1..] == events[k..];
      Reassociate(events[0].bytes, Bytes(events[1..], k - 1), Bytes(events[k..], m));
    }
  }

  lemma StreamSplit(events: seq<Event>, k: nat, m: nat)
    requires AllChunks(events, k)
    ensures Filled([], events, k + m) == Filled([], events, k) + Filled([], events[k..], m)
  {
    BytesSplit(events, k, m);
    StripCrConcat(Bytes(events, k), Bytes(events[k..], m));
  }

  lemma LinesStep(w: seq<byte>, n: nat)
    requires n > 0
    ensures Lines(w, n)[0] == FirstLine(w) && Lines(w, n) == [FirstLine(w)] + Lines(AfterLine(w), n - 1)
  {
  }

  /** What is dropped from behind the first line decides the second. */
  lemma SecondLineIs(all: seq<byte>, later: seq<byte>)
    requires HasNewline(all) && HasNewline(later)
    ensures var dropped, second := AfterLine(all), FirstLine(later);
            && FirstLine(all + later) == FirstLine(all)
            && (second == FirstLine(AfterLine(all + later))
                <==> dropped == [] || (HasNewline(dropped) && FirstLine(dropped) == second))
  {
    var dropped := AfterLine(all);
    FirstLineOf(all, later);
    if dropped == [] {
      assert dropped + later == later;
    } else if HasNewline(dropped) {
      FirstLineOf(dropped, later);
    } else {
      FirstLineJoins(dropped, later);
      assert |dropped + FirstLine(later)| > |FirstLine(later)|;
    }
  }

  /** What follows the newline in its chunk is lost, however the stream is cut: the second call
      returns the first line of the bytes that came in later chunks, and this is the second line
      of the stream if and only if nothing was dropped, or what was dropped held a whole line that
      happens to be the same. */
  lemma SecondLineWhole(events: seq<Event>, k: nat, m: nat)
    requires Arrives(events, k) && Arrives(events[k..], m)
    ensures var dropped, second := Dropped(events, k), FirstLine(Filled([], events[k..], m));
            var stream := Filled([], events, k + m);
            && Calls(events, 2) == [FirstLine(stream), second]
            && (second == FirstLine(AfterLine(stream))
                <==> dropped == [] || (HasNewline(dropped) && FirstLine(dropped) == second))
  {
    TwoCalls(events, k, m);
    StreamSplit(events, k, m);
    SecondLineIs(Filled([], events, k), Filled([], events[k..], m));
  }

  lemma TwoCalls(events: seq<Event>, k: nat, m: nat)
    requires Arrives(events, k) && Arrives(events[k..], m)
    ensures Calls(events, 2) == [FirstLine(Filled([], events, k)), FirstLine(Filled([], events[k..], m))]
  {
    CallReads(events, k);
    CallReads(events[k..], m);
    assert Calls(events[k..], 1) == [FirstLine(Filled([], events[k..], m))] + Calls(events[k..][m..], 0);
  }

  /** One call more at the front, by what it drops: `whole` says that the calls after it return
      the lines that follow, and `single` that they can only do so undisturbed. */
  lemma RowStep(all: seq<byte>, later: seq<byte>, calls: seq<seq<byte>>, n: nat, whole: bool, single: bool)
    requires HasNewline(all) && |calls| == n
    requires n > 0 ==> HasNewline(later) && calls[0] == FirstLine(later)
    requires whole ==> calls == Lines(later, n)
    requires single && calls == Lines(later, n) ==> whole
    ensures var dropped, lines := AfterLine(all), Lines(all + later, n + 1);
            && ((n > 0 ==> dropped == [] && whole) ==> [FirstLine(all)] + calls == lines)
            && ((n > 0 ==> !HasNewline(dropped) && single) && [FirstLine(all)] + calls == lines ==>
                  (n > 0 ==> dropped == [] && whole))
  {
    var dropped := AfterLine(all);
    FirstLineOf(all, later);
    LinesStep(all + later, n + 1);
    if n > 0 {
      assert ([FirstLine(all)] + calls)[1..] == calls;
      assert Lines(all + later, n + 1)[1..] == Lines(dropped + later, n);
      if dropped == [] {
        assert dropped + later == later;
      } else if !HasNewline(dropped) {
        LinesStep(dropped + later, n);
        FirstLineJoins(dropped, later);
        assert |dropped + FirstLine(later)| > |FirstLine(later)|;
      }
    }
  }

  /** Successive calls return the lines of `stream` if nothing is dropped, and where no chunk that
      ends a line holds a second newline, only then. */
  ghost predicate RowReads(events: seq<Event>, ks: seq<nat>, stream: seq<byte>)
    requires ArriveInTurn(events, ks)
  {
    var calls := Calls(events, |ks|);
    && |calls| == |ks|
    && (ks != [] ==> HasNewline(stream) && calls[0] == FirstLine(stream))
    && (NothingDropped(events, ks) ==> calls == Lines(stream, |ks|))
    && (OneNewlineEach(events, ks) && calls == Lines(stream, |ks|) ==> NothingDropped(events, ks))
  }

  lemma RowJoins(events: seq<Event>, ks: seq<nat>, all: seq<byte>, later: seq<byte>)
    requires ks != [] && ArriveInTurn(events, ks) && all == Filled([], events, ks[0])
    requires RowReads(events[ks[0]..], ks[1..], later)
    ensures RowReads(events, ks, all + later)
  {
    var rest, others := events[ks[0]..], ks[1..];
    FirstLineOf(all, later);
    CallsStep(events, ks[0], |others|);
    RowStep(all, later, Calls(rest, |others|), |others|, NothingDropped(rest, others), OneNewlineEach(rest, others));
  }

  lemma TotalSplit(events: seq<Event>, ks: seq<nat>)
    requires ks != [] && ArriveInTurn(events, ks)
    ensures Filled([], events, Total(ks)) == Filled([], events, ks[0]) + Filled([], events[ks[0]..], Total(ks[1..]))
  {
    StreamSplit(events, ks[0], Total(ks[1..]));
  }

  /** n calls return the first n lines of the stream when no line but the last is followed by
      anything in the chunk that ends it, and where no such chunk holds a second newline, only
      then. */
  lemma {:induction false} LinesInARow(events: seq<Event>, ks: seq<nat>) returns (stream: seq<byte>)
    requires ArriveInTurn(events, ks)
    ensures stream == Filled([], events, Total(ks))
    ensures RowReads(events, ks, stream)
    decreases |ks|
  {
    if ks == [] {
      stream := [];
    } else {
      var later := LinesInARow(events[ks[0]..], ks[1..]);
      var all := Filled([], events, ks[0]);
      TotalSplit(events, ks);
      RowJoins(events, ks, all, later);
      stream := all + later;
    }
  }

  lemma CallsStep(events: seq<Event>, k: nat, n: nat)
    requires Arrives(events, k)
    ensures Calls(events, n + 1) == [FirstLine(Filled([], events, k))] + Calls(events[k..], n)
  {
    CallReads(events, k);
  }
}
