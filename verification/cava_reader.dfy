/** Reassembly of the analyser's frames from arbitrary read chunks. */
module CavaReaders {
  import opened Base

  // ---------- Division ----------

  lemma DivUnique(x: nat, f: nat, q: nat, r: nat)
    requires f > 0 && r < f && x == q * f + r
    ensures x / f == q
  {
    var p := x / f;
    assert x == p * f + x % f;
    if p > q {
      MulAtLeast(p, q + 1, f);
    } else if p < q {
      MulAtLeast(q, p + 1, f);
    }
  }

  lemma MulAtLeast(p: nat, q: nat, f: nat)
    requires p >= q
    ensures p * f >= q * f
  {
  }

  // ---------- Specification ----------

  /** How many frames are complete after `n` bytes. */
  function Complete(f: nat, n: nat): nat
    requires f > 0
  {
    n / f
  }

  /** Frame `k` of the stream, aligned from its first byte. */
  function FrameAt(stream: seq<byte>, f: nat, k: nat): (r: seq<byte>)
    requires k * f + f <= |stream|
    ensures |r| == f
  {
    stream[k * f..k * f + f]
  }

  /** The indices of the frames handed out when the stream arrives cut as `chunks`: after a read
      that completes frames, the newest of them. */
  function Emitted(f: nat, chunks: seq<seq<byte>>): seq<nat>
    requires f > 0
  {
    if chunks == [] then [] else
    var init := chunks[..|chunks| - 1];
    var before, after := Complete(f, |Flatten(init)|), Complete(f, |Flatten(chunks)|);
    Emitted(f, init) + if after > before then [after - 1] else []
  }

  /** The number of complete frames passed over in favour of newer ones. */
  function Skipped(f: nat, chunks: seq<seq<byte>>): nat
    requires f > 0
  {
    if chunks == [] then 0 else
    var init := chunks[..|chunks| - 1];
    var before, after := Complete(f, |Flatten(init)|), Complete(f, |Flatten(chunks)|);
    Skipped(f, init) + if after > before then after - before - 1 else 0
  }

  lemma ReadsGrow(f: nat, chunks: seq<seq<byte>>)
    requires f > 0 && chunks != []
    ensures Flatten(chunks) == Flatten(chunks[..|chunks| - 1]) + chunks[|chunks| - 1]
    ensures Complete(f, |Flatten(chunks[..|chunks| - 1])|) <= Complete(f, |Flatten(chunks)|)
  {
    var init := chunks[..|chunks| - 1];
    assert chunks == init + [chunks[|chunks| - 1]];
    FlattenAppend(init, chunks[|chunks| - 1]);
    DivMonotone(|Flatten(init)|, |Flatten(chunks)|, f);
  }

  lemma DivMonotone(a: nat, b: nat, f: nat)
    requires a <= b && f > 0
    ensures a / f <= b / f
  {
    if a / f > b / f {
      MulAtLeast(a / f, b / f + 1, f);
    }
  }

  /** However the stream is cut, each frame handed out is complete, the indices strictly
      increase, and handed out plus passed over is what is complete. */
  lemma {:induction false} FramesAccountedFor(f: nat, chunks: seq<seq<byte>>)
    requires f > 0
    ensures |Emitted(f, chunks)| + Skipped(f, chunks) == |Flatten(chunks)| / f
    ensures forall i :: 0 <= i < |Emitted(f, chunks)| ==> Emitted(f, chunks)[i] < |Flatten(chunks)| / f
    ensures forall i, j :: 0 <= i < j < |Emitted(f, chunks)| ==> Emitted(f, chunks)[i] < Emitted(f, chunks)[j]
  {
    if chunks == [] {
      DivUnique(0, f, 0, 0);
    } else {
      FramesAccountedFor(f, chunks[..|chunks| - 1]);
      ReadsGrow(f, chunks);
    }
  }

  /** The frame indices are within the stream. */
  lemma WithinStream(f: nat, n: nat, k: nat)
    requires f > 0 && k < n / f
    ensures k * f + f <= n
  {
    MulAtLeast(n / f, k + 1, f);
    assert (k + 1) * f == k * f + f;
  }

  /** A read that ends on a frame boundary hands out the newest frame. */
  lemma LastReadCompletes(f: nat, chunks: seq<seq<byte>>)
    requires f > 0 && chunks != [] && chunks[|chunks| - 1] != [] && |Flatten(chunks)| % f == 0
    ensures Emitted(f, chunks) != [] && Emitted(f, chunks)[|Emitted(f, chunks)| - 1] == |Flatten(chunks)| / f - 1
  {
    ReadsGrow(f, chunks);
    BoundaryPassed(|Flatten(chunks[..|chunks| - 1])|, |Flatten(chunks)|, f);
  }

  lemma BoundaryPassed(a: nat, b: nat, f: nat)
    requires f > 0 && a < b && b % f == 0
    ensures a / f < b / f
  {
    DivMonotone(a, b, f);
    assert b == b / f * f && a == a / f * f + a % f;
  }

  /** `buffer` is the part of `stream` after its first `done` frames. */
  ghost predicate Tail(f: nat, stream: seq<byte>, buffer: seq<byte>, done: nat) {
    |stream| == done * f + |buffer| && buffer == stream[done * f..]
  }

  /** What a reader holds between calls: the part of the stream after its last complete frame. */
  ghost predicate Unread(f: nat, chunks: seq<seq<byte>>, buffer: seq<byte>)
    requires f > 0
  {
    Tail(f, Flatten(chunks), buffer, Complete(f, |Flatten(chunks)|)) && |buffer| < f
  }

  /** The state does not depend on how the same bytes were cut: both readers hold the same unread
      tail, have accounted for the same number of frames, and after a read that ends on a frame
      boundary have handed out the same last frame. */
  lemma ChunkingIndependent(f: nat, chunks: seq<seq<byte>>, buffer: seq<byte>,
      other: seq<seq<byte>>, otherBuffer: seq<byte>)
    requires f > 0 && Flatten(chunks) == Flatten(other)
    requires Unread(f, chunks, buffer) && Unread(f, other, otherBuffer)
    ensures buffer == otherBuffer
    ensures |Emitted(f, chunks)| + Skipped(f, chunks) == |Emitted(f, other)| + Skipped(f, other)
    ensures EndsOnBoundary(f, chunks) && EndsOnBoundary(f, other) ==> LastEmitted(f, chunks) == LastEmitted(f, other)
  {
    FramesAccountedFor(f, chunks);
    FramesAccountedFor(f, other);
    if EndsOnBoundary(f, chunks) && EndsOnBoundary(f, other) {
      LastReadCompletes(f, chunks);
      LastReadCompletes(f, other);
    }
  }

  /** The last read returned something and ended where a frame ends. */
  predicate EndsOnBoundary(f: nat, chunks: seq<seq<byte>>)
    requires f > 0
  {
    chunks != [] && chunks[|chunks| - 1] != [] && |Flatten(chunks)| % f == 0
  }

  function LastEmitted(f: nat, chunks: seq<seq<byte>>): Option<nat>
    requires f > 0
  {
    var e := Emitted(f, chunks);
    if e == [] then None else Some(e[|e| - 1])
  }

  lemma TailExtend(f: nat, stream: seq<byte>, buffer: seq<byte>, done: nat, chunk: seq<byte>)
    requires Tail(f, stream, buffer, done)
    ensures Tail(f, stream + chunk, buffer + chunk, done)
  {
  }

  lemma TailShort(f: nat, stream: seq<byte>, buffer: seq<byte>, done: nat)
    requires Tail(f, stream, buffer, done) && |buffer| < f
    ensures |stream| / f == done
  {
    DivUnique(|stream|, f, done, |buffer|);
  }

  lemma TailDrop(f: nat, stream: seq<byte>, buffer: seq<byte>, done: nat, frames: nat)
    requires Tail(f, stream, buffer, done) && frames * f <= |buffer|
    ensures Tail(f, stream, buffer[frames * f..], done + frames)
  {
    assert (done + frames) * f == done * f + frames * f;
  }

  lemma Cuts(n: nat, f: nat)
    requires f > 0 && n >= f
    ensures var num := n / f; num >= 1 && 0 <= (num - 1) * f && (num - 1) * f + f == num * f <= n < num * f + f
  {
    var num := n / f;
    assert n == num * f + n % f;
    assert num >= 1;
    assert (num - 1) * f + f == num * f;
    MulAtLeast(num - 1, 0, f);
  }

  /** The cuts made in the buffer are frame boundaries of the stream. */
  lemma TailCut(f: nat, stream: seq<byte>, buffer: seq<byte>, done: nat)
    requires f > 0 && Tail(f, stream, buffer, done) && |buffer| >= f
    ensures var num := |buffer| / f;
            && num >= 1 && 0 <= (num - 1) * f && (num - 1) * f + f == num * f <= |buffer| < num * f + f
            && Tail(f, stream, buffer[(num - 1) * f..], done + num - 1)
            && Tail(f, stream, buffer[num * f..], done + num)
  {
    var num := |buffer| / f;
    Cuts(|buffer|, f);
    TailDrop(f, stream, buffer, done, num - 1);
    TailDrop(f, stream, buffer, done, num);
  }

  lemma TailFrame(f: nat, stream: seq<byte>, buffer: seq<byte>, k: nat, count: nat)
    requires Tail(f, stream, buffer, k) && count <= f <= |buffer|
    ensures k * f + f <= |stream|
    ensures buffer[..count] == FrameAt(stream, f, k)[..count]
  {
  }

  /** What one more read hands out. */
  lemma OneMoreRead(f: nat, chunks: seq<seq<byte>>, chunk: seq<byte>)
    requires f > 0
    ensures Flatten(chunks + [chunk]) == Flatten(chunks) + chunk
    ensures Emitted(f, chunks + [chunk]) == Emitted(f, chunks) +
            if |Flatten(chunks) + chunk| / f > |Flatten(chunks)| / f then [|Flatten(chunks) + chunk| / f - 1] else []
  {
    FlattenAppend(chunks, chunk);
    assert (chunks + [chunk])[..|chunks|] == chunks;
  }

  // ---------- The reader ----------

  /** The result of a call: nothing when no frame was completed, otherwise the newest complete
      frame of the stream, cut to `maxValues`. */
  ghost predicate HandedOut(f: nat, before: seq<seq<byte>>, after: seq<seq<byte>>,
      maxValues: nat, frame: Option<seq<byte>>)
    requires f > 0
  {
    var k := |Flatten(after)| / f - 1;
    if Emitted(f, after) == Emitted(f, before) then frame == None
    else
      && Emitted(f, after) == Emitted(f, before) + [k]
      && k >= 0 && k * f + f <= |Flatten(after)|
      && frame == Some(FrameAt(Flatten(after), f, k)[..Min(f, maxValues)])
  }

  /** What was handed out stays handed out as more is read, and the frames stay where they were. */
  lemma {:induction false} ReadsKeepFrames(f: nat, chunks: seq<seq<byte>>, n: nat)
    requires f > 0 && n <= |chunks|
    ensures Emitted(f, chunks[..n]) <= Emitted(f, chunks)
    ensures Flatten(chunks[..n]) <= Flatten(chunks)
    decreases |chunks|
  {
    if n == |chunks| {
      assert chunks[..n] == chunks;
    } else {
      var init := chunks[..|chunks| - 1];
      ReadsKeepFrames(f, init, n);
      assert init[..n] == chunks[..n];
      ReadsGrow(f, chunks);
    }
  }

  lemma SameFrame(f: nat, stream: seq<byte>, more: seq<byte>, k: nat)
    requires stream <= more && k * f + f <= |stream|
    ensures FrameAt(more, f, k) == FrameAt(stream, f, k)
  {
    assert stream == more[..|stream|];
  }

  /** Whatever a call hands out is one of the emitted frames of the whole stream, cut to
      `maxValues`, however much is read afterwards. */
  lemma HandedOutIsEmitted(f: nat, chunks: seq<seq<byte>>, n: nat, maxValues: nat, values: seq<byte>) returns (k: nat)
    requires f > 0 && n < |chunks| && HandedOut(f, chunks[..n], chunks[..n + 1], maxValues, Some(values))
    ensures k in Emitted(f, chunks) && k * f + f <= |Flatten(chunks)|
    ensures values == FrameAt(Flatten(chunks), f, k)[..Min(f, maxValues)]
    ensures k == |Flatten(chunks[..n + 1])| / f - 1
  {
    var after := chunks[..n + 1];
    k := |Flatten(after)| / f - 1;
    ReadsKeepFrames(f, chunks, n + 1);
    assert Emitted(f, after)[|Emitted(f, after)| - 1] == k;
    SameFrame(f, Flatten(after), Flatten(chunks), k);
  }

  lemma HandsOutNothing(f: nat, chunks: seq<seq<byte>>, chunk: seq<byte>, maxValues: nat)
    requires f > 0 && |Flatten(chunks) + chunk| / f == |Flatten(chunks)| / f
    ensures HandedOut(f, chunks, chunks + [chunk], maxValues, None)
  {
    OneMoreRead(f, chunks, chunk);
  }

  /** Cutting the buffer at the last frame boundaries leaves the tail of the stream. */
  lemma NewestTail(f: nat, stream: seq<byte>, buffer: seq<byte>, done: nat)
    requires f > 0 && Tail(f, stream, buffer, done) && |buffer| >= f
    ensures var num := |buffer| / f;
            && 0 <= (num - 1) * f && (num - 1) * f + f <= |buffer|
            && var rest := buffer[(num - 1) * f..][f..];
            && |stream| / f == done + num && num >= 1
            && Tail(f, stream, rest, done + num) && |rest| < f
  {
    var num := |buffer| / f;
    TailCut(f, stream, buffer, done);
    assert buffer[(num - 1) * f..][f..] == buffer[num * f..];
    TailShort(f, stream, buffer[num * f..], done + num);
  }

  lemma NewestFrame(f: nat, stream: seq<byte>, buffer: seq<byte>, done: nat, count: nat)
    requires f > 0 && Tail(f, stream, buffer, done) && |buffer| >= f && count <= f
    ensures var num := |buffer| / f;
            var k := done + num - 1;
            && 0 <= (num - 1) * f && (num - 1) * f + f <= |buffer|
            && k >= 0 && k * f + f <= |stream|
            && buffer[(num - 1) * f..][..count] == FrameAt(stream, f, k)[..count]
  {
    var num := |buffer| / f;
    TailCut(f, stream, buffer, done);
    TailFrame(f, stream, buffer[(num - 1) * f..], done + num - 1, count);
  }

  /** The frame cut out there is the one to hand out. */
  lemma HandsOutNewest(f: nat, chunks: seq<seq<byte>>, chunk: seq<byte>, maxValues: nat, frame: seq<byte>,
      done: nat, num: nat)
    requires f > 0 && done == Complete(f, |Flatten(chunks)|) && num >= 1 && |Flatten(chunks) + chunk| / f == done + num
    requires var k := done + num - 1;
             && k * f + f <= |Flatten(chunks) + chunk|
             && frame == FrameAt(Flatten(chunks) + chunk, f, k)[..Min(f, maxValues)]
    ensures HandedOut(f, chunks, chunks + [chunk], maxValues, Some(frame))
  {
    OneMoreRead(f, chunks, chunk);
  }

  /** The newest complete frame of the buffer, how much goes before it and what is left after. */
  lemma CutNewest(f: nat, chunks: seq<seq<byte>>, chunk: seq<byte>, maxValues: nat, buffer: seq<byte>, done: nat)
    returns (skip: nat, frame: seq<byte>, rest: seq<byte>)
    requires f > 0 && done == Complete(f, |Flatten(chunks)|)
    requires Tail(f, Flatten(chunks) + chunk, buffer, done) && |buffer| >= f
    ensures skip + f <= |buffer|
    ensures frame == buffer[skip..][..Min(f, maxValues)] && rest == buffer[skip..][f..]
    ensures HandedOut(f, chunks, chunks + [chunk], maxValues, Some(frame))
    ensures Tail(f, Flatten(chunks) + chunk, rest, Complete(f, |Flatten(chunks) + chunk|)) && |rest| < f
    ensures skip == (|buffer| / f - 1) * f
  {
    var num := |buffer| / f;
    var stream := Flatten(chunks) + chunk;
    NewestTail(f, stream, buffer, done);
    NewestFrame(f, stream, buffer, done, Min(f, maxValues));
    skip := (num - 1) * f;
    frame, rest := buffer[skip..][..Min(f, maxValues)], buffer[skip..][f..];
    HandsOutNewest(f, chunks, chunk, maxValues, frame, done, num);
  }

  class CavaReader {
    const frameSize: nat
    var buffer: seq<byte>
    /** What each read since start returned. */
    ghost var chunks: seq<seq<byte>>

    /** Between calls the buffer is the part of the stream after its last complete frame. */
    ghost predicate Valid()
      reads this
    {
      frameSize > 0 && Unread(frameSize, chunks, buffer)
    }

    constructor (bars: nat)
      requires bars > 0
      ensures Valid() && chunks == [] && frameSize == bars
    {
      frameSize := bars;
      buffer := [];
      chunks := [];
      new;
      DivUnique(0, bars, 0, 0);
    }

    /** A new analyser process: the stream begins again. */
    method Start()
      requires frameSize > 0
      modifies this
      ensures Valid() && chunks == []
    {
      buffer := [];
      chunks := [];
      DivUnique(0, frameSize, 0, 0);
    }

    /** One call of read_binary. `ready` is the outcome of the poll and `chunk` what the read
        returned, empty when it failed. The frame handed out is the newest complete one, cut to
        `maxValues`. */
    method ReadBinary(ready: bool, chunk: seq<byte>, maxValues: nat) returns (frame: Option<seq<byte>>)
      requires Valid()
      modifies this
      ensures Valid()
      ensures chunks == old(chunks) + [if ready then chunk else []]
      ensures HandedOut(frameSize, old(chunks), chunks, maxValues, frame)
    {
      ghost var before := chunks;
      ghost var stream := Flatten(chunks);
      ghost var done := Complete(frameSize, |stream|);
      OneMoreRead(frameSize, chunks, if ready then chunk else []);
      chunks := chunks + [if ready then chunk else []];
      if |buffer| < frameSize && !ready {
        assert stream + [] == stream;
        HandsOutNothing(frameSize, before, [], maxValues);
        return None;
      }
      TailExtend(frameSize, stream, buffer, done, chunk);
      if |chunk| > 0 {
        buffer := buffer + chunk;
      } else {
        assert buffer + chunk == buffer;
      }
      if |buffer| < frameSize {
        TailShort(frameSize, stream + chunk, buffer, done);
        HandsOutNothing(frameSize, before, chunk, maxValues);
        return None;
      }
      ghost var cut, newest, rest := CutNewest(frameSize, before, chunk, maxValues, buffer, done);
      var numFrames := |buffer| / frameSize;
      var skip := (numFrames - 1) * frameSize;
      assert skip == cut;
      ghost var whole := buffer;
      if skip > 0 {
        buffer := buffer[skip..];
      }
      assert buffer == whole[skip..];
      var values := buffer[..Min(frameSize, maxValues)];
      buffer := buffer[frameSize..];
      frame := Some(values);
    }
  }
}
