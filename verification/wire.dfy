/** The bytes on the serial line over every run of the queue's threads, and what the device
    makes of them. */
module Wire {
  import opened Base
  import opened QueueOrder
  import opened SerialQueues
  import opened QueueProtocol
  import opened Framing
  import opened CavaReaders

  // ---------- Only what was sent is written ----------

  ghost predicate PositionHas(P: seq<byte> -> bool, p: Position) {
    match p
    case SendEnter(d, _) => P(d)
    case SendEnqueue(d, _) => P(d)
    case WriteGuard(_, d) => P(d)
    case WriteCall(_, d) => P(d)
    case _ => true
  }

  ghost predicate AllData(P: seq<byte> -> bool, s: System) {
    && (forall t :: t in s.threads ==> PositionHas(P, s.threads[t]))
    && (forall x :: x in s.sh.q ==> P(x.data))
    && (forall w :: w in s.writes ==> P(w.data))
  }

  /** Every send of the run hands over data with property `P`. */
  ghost predicate SendsOnly(P: seq<byte> -> bool, ls: seq<Label>) {
    forall l :: l in ls && l.Send? ==> P(l.data)
  }

  lemma ActKeepsPositionData(P: seq<byte> -> bool, c: Config, sh: Shared, t: nat, p: Position, n: int)
    requires PositionHas(P, p) && (sh.q != [] ==> P(sh.q[0].data))
    ensures var e := Act(c, sh, t, p, n);
            && PositionHas(P, e.next)
            && (e.writes != [] ==> |e.writes| == 1 && P(e.writes[0].data))
  {
  }

  lemma ActKeepsQueueData(P: seq<byte> -> bool, c: Config, sh: Shared, p: Position, e: Effect)
    requires QueueEffect(c, sh, p, e)
    requires forall x :: x in sh.q ==> P(x.data)
    requires e.logged != [] && e.logged[0].Accepted? ==> P(e.logged[0].item.data)
    ensures forall x :: x in e.sh.q ==> P(x.data)
  {
    if e.logged != [] && e.logged[0].Accepted? {
      InsertMembers(sh.q, e.logged[0].item);
    }
  }

  lemma ActAcceptsData(c: Config, sh: Shared, t: nat, p: Position, n: int)
    ensures var e := Act(c, sh, t, p, n);
            e.logged != [] && e.logged[0].Accepted? ==> p.SendEnqueue? && e.logged[0].item.data == p.data
  {
  }

  lemma StepKeepsData(P: seq<byte> -> bool, c: Config, s: System, t: nat, n: int)
    requires AllData(P, s) && t in s.threads
    ensures AllData(P, Apply(s, t, Act(c, s.sh, t, s.threads[t], n)))
  {
    var p := s.threads[t];
    ActKeepsPositionData(P, c, s.sh, t, p, n);
    ActOnQueue(c, s.sh, t, p, n);
    ActAcceptsData(c, s.sh, t, p, n);
    ActKeepsQueueData(P, c, s.sh, p, Act(c, s.sh, t, p, n));
  }

  lemma {:induction false} WritesHaveData(P: seq<byte> -> bool, c: Config, ls: seq<Label>)
    requires SendsOnly(P, ls)
    ensures AllData(P, Run(c, STARTED, ls))
  {
    if ls != [] {
      var init, l := ls[..|ls| - 1], ls[|ls| - 1];
      WritesHaveData(P, c, init);
      var s := Run(c, STARTED, init);
      if Enabled(s, l) {
        if l.Step? {
          StepKeepsData(P, c, s, l.thread, l.n);
        } else if l.Send? {
          assert l in ls;
        }
      }
    }
  }

  // ---------- What reaches the device ----------

  /** The message a buffer holds when it is one whole encoded message. */
  predicate Framed(d: seq<byte>) {
    DecodeOne(d).Some? && DecodeOne(d).value.1 == []
  }

  function MessageOf(d: seq<byte>): Message
    requires Framed(d)
  {
    DecodeOne(d).value.0
  }

  lemma FramedIsEncoding(d: seq<byte>)
    requires Framed(d)
    ensures WellFormed(MessageOf(d)) && Encode(MessageOf(d)) == d
  {
    DecodedIsEncoding(d);
  }

  lemma EncodingIsFramed(m: Message)
    requires WellFormed(m)
    ensures Framed(Encode(m)) && MessageOf(Encode(m)) == m
  {
    DecodeEncoded(m, []);
    assert Encode(m) + [] == Encode(m);
  }

  /** The bytes on the line: each successful write(2) put its first `n` bytes there. */
  function Line(writes: seq<Write>): seq<byte>
    requires forall w :: w in writes ==> w.n <= |w.data|
  {
    if writes == [] then []
    else (if writes[0].n < 0 then [] else writes[0].data[..writes[0].n]) + Line(writes[1..])
  }

  /** The successful writes, in order: the message of each and how much of it was taken. */
  function Deliveries(writes: seq<Write>): seq<Delivery>
    requires forall w :: w in writes ==> Framed(w.data)
  {
    if writes == [] then []
    else (if writes[0].n < 0 then [] else [Delivery(MessageOf(writes[0].data), writes[0].n)]) + Deliveries(writes[1..])
  }

  /** The messages of the successful writes. */
  function Written(writes: seq<Write>): seq<Message>
    requires forall w :: w in writes ==> Framed(w.data)
  {
    Messages(Deliveries(writes))
  }

  ghost predicate AllWhole(writes: seq<Write>) {
    forall w :: w in writes && w.n >= 0 ==> w.n == |w.data|
  }

  lemma {:induction false} DeliveriesAreWrites(writes: seq<Write>)
    requires forall w :: w in writes ==> w.n <= |w.data| && Framed(w.data)
    ensures Fits(Deliveries(writes))
    ensures Full(Deliveries(writes)) <==> AllWhole(writes)
    ensures forall d :: d in Deliveries(writes) ==>
              WellFormed(d.m) && exists w :: w in writes && MessageOf(w.data) == d.m
  {
    if writes != [] {
      var w, rest := writes[0], writes[1..];
      DeliveriesAreWrites(rest);
      FramedIsEncoding(w.data);
      assert writes == [w] + rest;
      assert AllWhole(writes) <==> (w.n >= 0 ==> w.n == |w.data|) && AllWhole(rest);
      if w.n < 0 {
        assert Deliveries(writes) == Deliveries(rest);
      } else {
        var d := Delivery(MessageOf(w.data), w.n);
        assert Deliveries(writes) == [d] + Deliveries(rest);
        assert d in Deliveries(writes);
      }
    }
  }

  lemma {:induction false} LineIsDelivered(writes: seq<Write>)
    requires forall w :: w in writes ==> w.n <= |w.data| && Framed(w.data)
    requires Fits(Deliveries(writes))
    ensures Line(writes) == Delivered(Deliveries(writes))
  {
    if writes != [] {
      var w, rest := writes[0], writes[1..];
      DeliveriesAreWrites(rest);
      LineIsDelivered(rest);
      FramedIsEncoding(w.data);
      if w.n < 0 {
        assert Deliveries(writes) == Deliveries(rest) && Line(writes) == Line(rest);
      } else {
        assert Deliveries(writes)[1..] == Deliveries(rest);
      }
    }
  }

  lemma {:induction false} MessagesFromDeliveries(ds: seq<Delivery>)
    ensures forall m :: m in Messages(ds) <==> exists d :: d in ds && d.m == m
  {
    if ds != [] {
      MessagesFromDeliveries(ds[1..]);
      assert ds == [ds[0]] + ds[1..];
      forall m
        ensures m in Messages(ds) <==> exists d :: d in ds && d.m == m
      {
        assert m in Messages(ds) <==> m == ds[0].m || m in Messages(ds[1..]);
      }
    }
  }

  lemma {:induction false} WriteCountsBounded(c: Config, ls: seq<Label>)
    ensures forall w :: w in Run(c, STARTED, ls).writes ==> w.n <= |w.data|
  {
    if ls != [] {
      WriteCountsBounded(c, ls[..|ls| - 1]);
    }
  }

  /** When every write handed over is one whole message, the device recovers the messages of the
      successful ones, in order, if and only if each of these was whole. */
  lemma RecoversWrites(ws: seq<Write>)
    requires forall w :: w in ws ==> w.n <= |w.data| && Framed(w.data)
    ensures Decode(Line(ws)) == (Written(ws), []) <==> AllWhole(ws)
  {
    DeliveriesAreWrites(ws);
    LineIsDelivered(ws);
    MessagesFromDeliveries(Deliveries(ws));
    WholeWritesNeeded(Deliveries(ws));
  }

  lemma {:induction false} LineSplit(ws: seq<Write>, i: nat)
    requires i <= |ws| && forall w :: w in ws ==> w.n <= |w.data|
    ensures Line(ws) == Line(ws[..i]) + Line(ws[i..])
  {
    if i == 0 {
      assert ws[0..] == ws;
    } else {
      var own := if ws[0].n < 0 then [] else ws[0].data[..ws[0].n];
      LineSplit(ws[1..], i - 1);
      assert ws[..i][1..] == ws[1..][..i - 1] && ws[1..][i - 1..] == ws[i..];
      Reassociate(own, Line(ws[1..][..i - 1]), Line(ws[i..]));
    }
  }

  /** Whole writes put the encoding of their messages on the line. */
  lemma WholeLine(ws: seq<Write>)
    requires AllWhole(ws) && forall w :: w in ws ==> w.n <= |w.data| && Framed(w.data)
    ensures Line(ws) == EncodeAll(Written(ws)) && AllWellFormed(Written(ws))
  {
    DeliveriesAreWrites(ws);
    LineIsDelivered(ws);
    FullIsWhole(Deliveries(ws));
    MessagesFromDeliveries(Deliveries(ws));
  }

  lemma {:induction false} NoneWritten(ws: seq<Write>)
    requires forall w :: w in ws ==> w.n < 0
    ensures Line(ws) == []
  {
    if ws != [] {
      assert ws[0] in ws;
      NoneWritten(ws[1..]);
    }
  }

  /** Write `i` was short, and nothing else has been written since. */
  ghost predicate ShortLast(ws: seq<Write>, i: nat) {
    i < |ws| && 0 <= ws[i].n < |ws[i].data| && forall w :: w in ws[i + 1..] ==> w.n < 0
  }

  /** Up to the first short write nothing is lost: the device decodes the messages written before
      it, then whatever it makes of the rest; and until something else is written, just these. */
  lemma RecoversUntilShort(ws: seq<Write>, i: nat)
    requires i <= |ws| && AllWhole(ws[..i])
    requires forall w :: w in ws ==> w.n <= |w.data| && Framed(w.data)
    ensures Decode(Line(ws)).0 == Written(ws[..i]) + Decode(Line(ws[i..])).0
    ensures ShortLast(ws, i) ==> Decode(Line(ws)).0 == Written(ws[..i])
  {
    LineSplit(ws, i);
    WholeLine(ws[..i]);
    DecodeBefore(Written(ws[..i]), Line(ws[i..]));
    if ShortLast(ws, i) {
      LastCutShort(ws[i..]);
      assert Written(ws[..i]) + [] == Written(ws[..i]);
    }
  }

  lemma LastCutShort(ws: seq<Write>)
    requires ws != [] && forall w :: w in ws ==> w.n <= |w.data| && Framed(w.data)
    requires 0 <= ws[0].n < |ws[0].data| && forall w :: w in ws[1..] ==> w.n < 0
    ensures Decode(Line(ws)).0 == []
  {
    NoneWritten(ws[1..]);
    FramedIsEncoding(ws[0].data);
    CutShort(MessageOf(ws[0].data), ws[0].n);
    assert ws[0].data[..ws[0].n] + [] == ws[0].data[..ws[0].n];
  }

  /** Over every run in which each send hands over one whole message: up to the first short write
      the device decodes exactly the messages of the successful writes, in write order. */
  lemma DeviceRecoversUntilShort(c: Config, ls: seq<Label>, i: nat)
    requires SendsOnly(d => Framed(d), ls)
    requires i <= |Run(c, STARTED, ls).writes| && AllWhole(Run(c, STARTED, ls).writes[..i])
    ensures var ws := Run(c, STARTED, ls).writes;
            && (forall w :: w in ws ==> w.n <= |w.data| && Framed(w.data))
            && Decode(Line(ws)).0 == Written(ws[..i]) + Decode(Line(ws[i..])).0
            && (ShortLast(ws, i) ==> Decode(Line(ws)).0 == Written(ws[..i]))
  {
    WritesHaveData(d => Framed(d), c, ls);
    WriteCountsBounded(c, ls);
    RecoversUntilShort(Run(c, STARTED, ls).writes, i);
  }

  /** Over every run, for any mix of worker and critical writes, when every send hands over one
      whole message: the device recovers exactly the messages of the successful writes, in write
      order, if and only if every successful write was whole. */
  lemma DeviceRecoversWrites(c: Config, ls: seq<Label>)
    requires SendsOnly(d => Framed(d), ls)
    ensures var ws := Run(c, STARTED, ls).writes;
            && (forall w :: w in ws ==> w.n <= |w.data| && Framed(w.data))
            && (Decode(Line(ws)) == (Written(ws), []) <==> AllWhole(ws))
  {
    WritesHaveData(d => Framed(d), c, ls);
    WriteCountsBounded(c, ls);
    RecoversWrites(Run(c, STARTED, ls).writes);
  }

  // ---------- From the analyser to the device ----------

  predicate IsText(d: seq<byte>) {
    Framed(d) && MessageOf(d).Json?
  }

  /** The buffer send_binary_spectrum builds from the values a read of the analyser returned. */
  function SpectrumBuffer(f: nat, values: seq<byte>): seq<byte> {
    Encode(Spectrum(BinaryHeader(f), values))
  }

  /** A buffer the bridge sends: a text line, or what some read handed out, with the header. */
  ghost predicate FromBridge(d: seq<byte>, chunks: seq<seq<byte>>, f: nat)
    requires f > 0
  {
    || IsText(d)
    || (exists n: nat, values :: n < |chunks| && HandedOutAt(f, chunks, n, values) && d == SpectrumBuffer(f, values))
  }

  /** Read `n` handed out `values`. */
  ghost predicate HandedOutAt(f: nat, chunks: seq<seq<byte>>, n: nat, values: seq<byte>)
    requires f > 0 && n < |chunks|
  {
    HandedOut(f, chunks[..n], chunks[..n + 1], MAX_SPECTRUM_VALUES, Some(values))
  }

  /** Up to 64 bars the buffer is one whole message under a header that is the bar count. */
  lemma BufferIsMessage(f: nat, values: seq<byte>)
    requires 1 <= f <= 64 && |values| == f
    ensures Framed(SpectrumBuffer(f, values)) && MessageOf(SpectrumBuffer(f, values)) == Spectrum(f, values)
  {
    EncodingIsFramed(Spectrum(f, values));
  }

  lemma BridgeBuffersAreFramed(d: seq<byte>, chunks: seq<seq<byte>>, f: nat)
    requires 1 <= f <= 64 && FromBridge(d, chunks, f)
    ensures Framed(d)
    ensures MessageOf(d).Spectrum? ==>
              exists k: nat :: k in Emitted(f, chunks) && k * f + f <= |Flatten(chunks)|
                               && MessageOf(d) == Spectrum(f, FrameAt(Flatten(chunks), f, k))
  {
    if !IsText(d) {
      var n: nat, values :| n < |chunks| && HandedOutAt(f, chunks, n, values) && d == SpectrumBuffer(f, values);
      var k := HandedOutIsEmitted(f, chunks, n, MAX_SPECTRUM_VALUES, values);
      assert values == FrameAt(Flatten(chunks), f, k);
      BufferIsMessage(f, values);
    }
  }

  /** Whatever is sent of what the reads returned: with 1 to 64 bars and whole writes, every
      spectrum the device decodes in any run is one of the emitted frames, aligned in the
      analyser's stream and whole, under a header that is the bar count. */
  lemma DecodedSpectraAreAligned(c: Config, ls: seq<Label>, chunks: seq<seq<byte>>, f: nat, m: Message)
    requires 1 <= f <= 64
    requires SendsOnly(d => FromBridge(d, chunks, f), ls)
    requires AllWhole(Run(c, STARTED, ls).writes)
    requires (forall w :: w in Run(c, STARTED, ls).writes ==> w.n <= |w.data|)
             && m in Decode(Line(Run(c, STARTED, ls).writes)).0 && m.Spectrum?
    ensures exists k: nat :: k in Emitted(f, chunks) && k * f + f <= |Flatten(chunks)|
                             && m == Spectrum(f, FrameAt(Flatten(chunks), f, k))
  {
    forall l | l in ls && l.Send?
      ensures Framed(l.data)
    {
      BridgeBuffersAreFramed(l.data, chunks, f);
    }
    WritesHaveData(d => FromBridge(d, chunks, f), c, ls);
    DeviceRecoversWrites(c, ls);
    var ws := Run(c, STARTED, ls).writes;
    MessagesFromDeliveries(Deliveries(ws));
    DeliveriesAreWrites(ws);
    var w :| w in ws && MessageOf(w.data) == m;
    BridgeBuffersAreFramed(w.data, chunks, f);
  }
}
