/** The wire format: binary spectrum frames and newline-terminated JSON on one line. */
module Framing {
  import opened Base

  const SYNC_BYTE: byte := 0xCA

  datatype Message = Json(text: seq<byte>) | Spectrum(header: byte, payload: seq<byte>)

  /** The bytes send_json and send_binary_spectrum hand to the queue. */
  function Encode(m: Message): (r: seq<byte>)
    ensures r != []
  {
    match m
    case Json(text) => text + [NEWLINE]
    case Spectrum(header, payload) => [SYNC_BYTE, header] + payload
  }

  function EncodeAll(ms: seq<Message>): seq<byte> {
    if ms == [] then [] else Encode(ms[0]) + EncodeAll(ms[1..])
  }

  /** The messages the decoder can tell apart: text on one line that does not start like a
      frame, and frames whose header is the length of the payload. */
  predicate WellFormed(m: Message) {
    match m
    case Json(text) => NEWLINE !in text && (text == [] || text[0] != SYNC_BYTE)
    case Spectrum(header, payload) => header == |payload|
  }

  ghost predicate AllWellFormed(ms: seq<Message>) {
    forall m :: m in ms ==> WellFormed(m)
  }

  /** How a device reads one message: a sync byte, a length and that many bytes, or a line. */
  function DecodeOne(w: seq<byte>): (r: Option<(Message, seq<byte>)>)
    ensures r.Some? ==> |r.value.1| < |w|
  {
    if w == [] then None
    else if w[0] == SYNC_BYTE then
      if |w| < 2 || |w| < 2 + w[1] as int then None
      else Some((Spectrum(w[1], w[2..2 + w[1]]), w[2 + w[1]..]))
    else
      var p := FindNewline(w);
      if p == |w| then None else Some((Json(w[..p]), w[p + 1..]))
  }

  /** The messages on the wire and the incomplete remainder. */
  function Decode(w: seq<byte>): (seq<Message>, seq<byte>)
    decreases |w|
  {
    match DecodeOne(w)
    case None => ([], w)
    case Some((m, rest)) => var (ms, left) := Decode(rest); ([m] + ms, left)
  }

  /** How a device tells the messages apart: a frame starts with 0xCA and the length of what follows,
      and anything else is a line whose one newline is its last byte. */
  lemma ToldApart(m: Message)
    requires WellFormed(m)
    ensures Encode(m)[0] == 0xCA <==> m.Spectrum?
    ensures m.Spectrum? ==> |Encode(m)| >= 2 && Encode(m)[1] as int == |Encode(m)| - 2
    ensures m.Json? ==> FindNewline(Encode(m)) == |Encode(m)| - 1 && Encode(m)[|Encode(m)| - 1] == 10
  {
    if m.Json? {
      assert forall i :: 0 <= i < |m.text| ==> Encode(m)[i] == m.text[i] && m.text[i] in m.text;
      FindNewlineUnique(Encode(m), |m.text|);
    }
  }

  lemma DecodeEncoded(m: Message, w: seq<byte>)
    requires WellFormed(m)
    ensures DecodeOne(Encode(m) + w) == Some((m, w))
  {
    var all := Encode(m) + w;
    match m
    case Json(text) =>
      assert all[..|text|] == text && all[|text|] == NEWLINE;
      assert all[|text| + 1..] == w;
      assert forall i :: 0 <= i < |text| ==> all[i] == text[i] && all[i] in text;
      FindNewlineUnique(all, |text|);
    case Spectrum(header, payload) =>
      assert all[2..2 + header] == payload;
      assert all[2 + header..] == w;
  }

  /** What the decoder produces is well formed and encodes to what it consumed. */
  lemma DecodedIsEncoding(w: seq<byte>)
    requires DecodeOne(w).Some?
    ensures var (m, rest) := DecodeOne(w).value; WellFormed(m) && Encode(m) + rest == w
  {
    var (m, rest) := DecodeOne(w).value;
    if w[0] != SYNC_BYTE {
      var p := FindNewline(w);
      assert w == w[..p] + [w[p]] + w[p + 1..];
    }
  }

  /** Messages are decoded whatever comes behind them, and what comes behind is decoded as if it
      stood alone. */
  lemma {:induction false} DecodeBefore(ms: seq<Message>, w: seq<byte>)
    requires AllWellFormed(ms)
    ensures Decode(EncodeAll(ms) + w) == (ms + Decode(w).0, Decode(w).1)
  {
    if ms == [] {
      assert [] + w == w && [] + Decode(w).0 == Decode(w).0;
    } else {
      Reassociate(Encode(ms[0]), EncodeAll(ms[1..]), w);
      DecodeNext(ms[0], EncodeAll(ms[1..]) + w);
      DecodeBefore(ms[1..], w);
      Reassociate([ms[0]], ms[1..], Decode(w).0);
      assert ms == [ms[0]] + ms[1..];
    }
  }

  lemma DecodeNext(m: Message, w: seq<byte>)
    requires WellFormed(m)
    ensures Decode(Encode(m) + w) == ([m] + Decode(w).0, Decode(w).1)
  {
    DecodeEncoded(m, w);
  }

  lemma DecodeAll(ms: seq<Message>)
    requires AllWellFormed(ms)
    ensures Decode(EncodeAll(ms)) == (ms, [])
  {
    DecodeBefore(ms, []);
    assert EncodeAll(ms) + [] == EncodeAll(ms) && ms + [] == ms;
  }

  /** A message cut short shows nothing. */
  lemma CutShort(m: Message, n: nat)
    requires WellFormed(m) && n < |Encode(m)|
    ensures Decode(Encode(m)[..n]).0 == []
  {
    var cut := Encode(m)[..n];
    if m.Json? && cut != [] {
      assert cut[0] == m.text[0];
      var p := FindNewline(cut);
      assert forall i :: 0 <= i < n ==> cut[i] == m.text[i] && m.text[i] in m.text;
      assert p == n;
    }
  }

  lemma {:induction false} DecodeCanonical(w: seq<byte>)
    ensures AllWellFormed(Decode(w).0)
    ensures EncodeAll(Decode(w).0) + Decode(w).1 == w
    decreases |w|
  {
    match DecodeOne(w)
    case None =>
    case Some((m, rest)) =>
      DecodedIsEncoding(w);
      DecodeCanonical(rest);
      EncodeCons(m, Decode(rest).0, Decode(rest).1);
  }

  lemma EncodeCons(m: Message, ms: seq<Message>, tail: seq<byte>)
    ensures EncodeAll([m] + ms) + tail == Encode(m) + (EncodeAll(ms) + tail)
    ensures WellFormed(m) && AllWellFormed(ms) ==> AllWellFormed([m] + ms)
  {
    assert ([m] + ms)[1..] == ms;
  }

  /** Unique decodability, with its exact condition: the decoder gives back a sequence of
      messages if and only if each of them is well formed. */
  lemma RoundTrip(ms: seq<Message>)
    ensures Decode(EncodeAll(ms)) == (ms, []) <==> AllWellFormed(ms)
  {
    if AllWellFormed(ms) {
      DecodeAll(ms);
    }
    DecodeCanonical(EncodeAll(ms));
  }

  /** Two sequences of well-formed messages never share a wire image. */
  lemma EncodeInjective(ms: seq<Message>, ns: seq<Message>)
    requires AllWellFormed(ms) && AllWellFormed(ns) && EncodeAll(ms) == EncodeAll(ns)
    ensures ms == ns
  {
    DecodeAll(ms);
    DecodeAll(ns);
  }

  // ---------- Partial writes ----------

  /** A message and how many of its bytes write(2) took. */
  datatype Delivery = Delivery(m: Message, n: nat)

  ghost predicate Fits(ds: seq<Delivery>) {
    forall d :: d in ds ==> d.n <= |Encode(d.m)|
  }

  ghost predicate Full(ds: seq<Delivery>) {
    forall d :: d in ds ==> d.n == |Encode(d.m)|
  }

  function Messages(ds: seq<Delivery>): seq<Message> {
    if ds == [] then [] else [ds[0].m] + Messages(ds[1..])
  }

  /** What reached the wire. */
  function Delivered(ds: seq<Delivery>): seq<byte>
    requires Fits(ds)
  {
    if ds == [] then []
    else
      assert ds[0] in ds;
      Encode(ds[0].m)[..ds[0].n] + Delivered(ds[1..])
  }

  lemma FullStep(ds: seq<Delivery>)
    requires ds != [] && Fits(ds)
    ensures Fits(ds[1..]) && ds[0].n <= |Encode(ds[0].m)|
    ensures Full(ds) <==> ds[0].n == |Encode(ds[0].m)| && Full(ds[1..])
  {
    assert ds == [ds[0]] + ds[1..];
  }

  lemma {:induction false} FullIsWhole(ds: seq<Delivery>)
    requires Fits(ds) && Full(ds)
    ensures Delivered(ds) == EncodeAll(Messages(ds))
  {
    if ds != [] {
      FullStep(ds);
      FullIsWhole(ds[1..]);
      assert Messages(ds)[1..] == Messages(ds[1..]);
      assert Encode(ds[0].m)[..ds[0].n] == Encode(ds[0].m);
    }
  }

  lemma {:induction false} DeliveredLength(ds: seq<Delivery>)
    requires Fits(ds)
    ensures |Delivered(ds)| <= |EncodeAll(Messages(ds))| - if Full(ds) then 0 else 1
  {
    if ds != [] {
      FullStep(ds);
      DeliveredLength(ds[1..]);
      assert Messages(ds)[1..] == Messages(ds[1..]);
      LengthStep(ds[0].n, Encode(ds[0].m), Delivered(ds[1..]), EncodeAll(Messages(ds[1..])));
    }
  }

  lemma LengthStep(n: nat, whole: seq<byte>, delivered: seq<byte>, others: seq<byte>)
    requires n <= |whole| && |delivered| <= |others|
    ensures |whole[..n] + delivered| <= |whole + others| - (if n < |whole| then 1 else 0)
    ensures |delivered| < |others| ==> |whole[..n] + delivered| < |whole + others|
  {
  }

  /** The queue counts any write result n >= 0 as success. The device recovers what was written
      if and only if every write was whole. */
  lemma WholeWritesNeeded(ds: seq<Delivery>)
    requires AllWellFormed(Messages(ds)) && Fits(ds)
    ensures Decode(Delivered(ds)) == (Messages(ds), []) <==> Full(ds)
  {
    DeliveredLength(ds);
    if Full(ds) {
      FullIsWhole(ds);
    }
    DecodeAll(Messages(ds));
    DecodeCanonical(Delivered(ds));
    assert EncodeAll(Messages(ds)) + [] == EncodeAll(Messages(ds));
  }

  // ---------- The spectrum header ----------

  /** binary_header: the bar count as a byte with its top bit cleared. */
  function BinaryHeader(bars: nat): (h: byte)
    ensures h < 128
  {
    (bars % 256) % 128
  }

  const MAX_SPECTRUM_VALUES: nat := 64

  /** The frame sent for one frame of the analyser: at most 64 of its values. */
  function SpectrumMessage(frame: seq<byte>): Message {
    Spectrum(BinaryHeader(|frame|), frame[..Min(|frame|, MAX_SPECTRUM_VALUES)])
  }

  /** The header agrees with the payload up to 64 bars, and above that only for counts that leave
      64 modulo 128; in the range 1 to 127 that identification allows, exactly up to 64. */
  lemma HeaderMatchesPayload(frame: seq<byte>)
    ensures WellFormed(SpectrumMessage(frame)) <==> |frame| <= 64 || |frame| % 128 == 64
    ensures 1 <= |frame| <= 127 ==> (WellFormed(SpectrumMessage(frame)) <==> |frame| <= 64)
  {
    assert (|frame| % 256) % 128 == |frame| % 128;
  }

  /** With 65 to 127 bars the header asks for bytes of whatever is written next: from a frame
      and a JSON line that is shorter than the excess nothing can be decoded at all. */
  lemma OversizedHeaderSwallows(frame: seq<byte>, text: seq<byte>)
    requires 65 <= |frame| <= 127 && |text| + 1 < |frame| - 64
    ensures Decode(Encode(SpectrumMessage(frame)) + Encode(Json(text))).0 == []
  {
    assert BinaryHeader(|frame|) == |frame|;
  }
}
