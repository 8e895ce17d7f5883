/** What a device's answer to the identify request makes of it. */
module DeviceIds {
  import opened Base

  datatype DeviceType = Mpd | Cava | Hybrid | Sysinfo

  datatype Format = Json | Binary

  datatype DeviceId = DeviceId(deviceType: DeviceType, format: Format, bars: Option<nat>, hasSysinfo: bool)

  /** The decoded answer. */
  datatype Envelope = Envelope(t: string, modes: seq<string>, name: Option<string>, binary: bool, bars: Option<nat>)

  datatype Flags = Flags(mpd: bool, cava: bool, sysinfo: bool)

  const MIN_BARS: nat := 1
  const MAX_BARS: nat := 127

  function ToLower(s: string): (r: string)
    ensures |r| == |s|
  {
    if s == [] then []
    else [if 'A' <= s[0] <= 'Z' then s[0] - 'A' + 'a' else s[0]] + ToLower(s[1..])
  }

  /** The modes a device has: those it lists, or if it lists none, those its name mentions. */
  function FlagsOf(env: Envelope): Flags {
    if env.modes != [] then Flags("mpd" in env.modes, "cava" in env.modes, "sysinfo" in env.modes)
    else
      match env.name
      case None => Flags(false, false, false)
      case Some(name) =>
        var lower := ToLower(name);
        Flags(Contains(lower, "mpd"), Contains(lower, "cava"), Contains(lower, "sysinfo"))
  }

  function TypeOf(f: Flags): Option<DeviceType> {
    match (f.mpd, f.cava, f.sysinfo)
    case (true, true, _) => Some(Hybrid)
    case (true, false, true) => Some(Hybrid)
    case (false, true, true) => Some(Hybrid)
    case (true, false, false) => Some(Mpd)
    case (false, true, false) => Some(Cava)
    case (false, false, true) => Some(Sysinfo)
    case (false, false, false) => None
  }

  function ClampBars(bars: nat): nat {
    if bars < MIN_BARS then MIN_BARS else if bars > MAX_BARS then MAX_BARS else bars
  }

  function Classify(env: Envelope): Option<DeviceId> {
    if env.t != "id" then None
    else
      var f := FlagsOf(env);
      match TypeOf(f)
      case None => None
      case Some(ty) =>
        var bars := match env.bars case None => None case Some(b) => Some(ClampBars(b));
        Some(DeviceId(ty, if env.binary then Binary else Json, bars, f.sysinfo))
  }

  function ModeCount(f: Flags): nat {
    (if f.mpd then 1 else 0) + (if f.cava then 1 else 0) + (if f.sysinfo then 1 else 0)
  }

  /** A device is accepted exactly when it has a mode; it is a hybrid exactly when it has
      several, and otherwise the type is its mode. */
  lemma ClassifiedByModes(env: Envelope)
    ensures Classify(env).Some? <==> env.t == "id" && ModeCount(FlagsOf(env)) > 0
    ensures Classify(env).Some? ==>
              var id, f := Classify(env).value, FlagsOf(env);
              && (id.deviceType == Hybrid <==> ModeCount(f) > 1)
              && (id.deviceType == Mpd <==> f == Flags(true, false, false))
              && (id.deviceType == Cava <==> f == Flags(false, true, false))
              && (id.deviceType == Sysinfo <==> f == Flags(false, false, true))
              && id.hasSysinfo == f.sysinfo
              && (id.bars.Some? ==> MIN_BARS <= id.bars.value <= MAX_BARS)
  {
  }

  // ---------- In the answer's own terms ----------

  predicate SameLetter(c: char, lower: char) {
    c == lower || ('A' <= c <= 'Z' && c - 'A' + 'a' == lower)
  }

  predicate MentionsAt(name: string, word: string, i: nat) {
    i + |word| <= |name| && forall j :: 0 <= j < |word| ==> SameLetter(name[i + j], word[j])
  }

  /** `word` stands somewhere in `name`, in letters of either case. */
  predicate Mentions(name: string, word: string) {
    exists i: nat :: i <= |name| && MentionsAt(name, word, i)
  }

  lemma {:induction false} LowerAt(s: string, i: nat)
    requires i < |s|
    ensures ToLower(s)[i] == if 'A' <= s[i] <= 'Z' then s[i] - 'A' + 'a' else s[i]
  {
    if i > 0 {
      LowerAt(s[1..], i - 1);
    }
  }

  lemma MentionsLower(name: string, word: string, i: nat)
    requires forall c :: c in word ==> 'a' <= c <= 'z'
    ensures MatchesAt(ToLower(name), word, i) <==> MentionsAt(name, word, i)
  {
    if i + |word| <= |name| {
      var part := ToLower(name)[i..i + |word|];
      forall j | 0 <= j < |word|
        ensures part[j] == word[j] <==> SameLetter(name[i + j], word[j])
      {
        LowerAt(name, i + j);
        assert word[j] in word;
      }
      assert MentionsAt(name, word, i) ==> part == word;
    }
  }

  lemma ContainsLower(name: string, word: string)
    requires forall c :: c in word ==> 'a' <= c <= 'z'
    ensures Contains(ToLower(name), word) <==> Mentions(name, word)
  {
    forall i: nat
      ensures MatchesAt(ToLower(name), word, i) <==> MentionsAt(name, word, i)
    {
      MentionsLower(name, word, i);
    }
  }

  /** The device lists the mode, or lists none at all and mentions it in its name. */
  predicate HasMode(env: Envelope, word: string) {
    if env.modes != [] then word in env.modes else env.name.Some? && Mentions(env.name.value, word)
  }

  /** What a device is taken for, in the terms of its answer: it is accepted if and only if the answer
      is of the right kind and it has a mode; it is a hybrid if it has several, and otherwise its
      mode is its type; the format and the bars are those it asks for, the bars brought into 1 to
      127. */
  lemma IdentifiedExactly(env: Envelope)
    ensures var mpd, cava, sysinfo := HasMode(env, "mpd"), HasMode(env, "cava"), HasMode(env, "sysinfo");
            if env.t != "id" || !(mpd || cava || sysinfo) then Classify(env) == None
            else
              && Classify(env).Some?
              && var id := Classify(env).value;
              && id.deviceType == (if (mpd && cava) || (mpd && sysinfo) || (cava && sysinfo) then Hybrid
                                   else if mpd then Mpd else if cava then Cava else Sysinfo)
              && id.hasSysinfo == sysinfo
              && (id.format == Binary <==> env.binary)
              && (id.bars == None <==> env.bars == None)
              && (env.bars.Some? ==>
                    id.bars.value == if env.bars.value < 1 then 1
                                     else if env.bars.value > 127 then 127 else env.bars.value)
  {
    if env.name.Some? {
      ContainsLower(env.name.value, "mpd");
      ContainsLower(env.name.value, "cava");
      ContainsLower(env.name.value, "sysinfo");
    }
    FlagsInTerms(env);
  }

  lemma FlagsInTerms(env: Envelope)
    requires env.name.Some? ==>
               && (Contains(ToLower(env.name.value), "mpd") <==> Mentions(env.name.value, "mpd"))
               && (Contains(ToLower(env.name.value), "cava") <==> Mentions(env.name.value, "cava"))
               && (Contains(ToLower(env.name.value), "sysinfo") <==> Mentions(env.name.value, "sysinfo"))
    ensures FlagsOf(env) == Flags(HasMode(env, "mpd"), HasMode(env, "cava"), HasMode(env, "sysinfo"))
  {
  }

  method Identify(env: Envelope) returns (id: Option<DeviceId>)
    ensures id == Classify(env)
  {
    if env.t != "id" {
      return None;
    }
    var bars := match env.bars case None => None case Some(b) => Some(ClampBars(b));
    var hasMpd, hasCava, hasSysinfo := false, false, false;
    if env.modes != [] {
      for i := 0 to |env.modes|
        invariant hasMpd == ("mpd" in env.modes[..i])
        invariant hasCava == ("cava" in env.modes[..i])
        invariant hasSysinfo == ("sysinfo" in env.modes[..i])
      {
        var m := env.modes[i];
        assert env.modes[..i + 1] == env.modes[..i] + [m];
        if m == "mpd" {
          hasMpd := true;
        } else if m == "cava" {
          hasCava := true;
        } else if m == "sysinfo" {
          hasSysinfo := true;
        }
      }
      assert env.modes[..|env.modes|] == env.modes;
    } else if env.name.Some? {
      var lower := ToLower(env.name.value);
      if Contains(lower, "cava") {
        hasCava := true;
      }
      if Contains(lower, "mpd") {
        hasMpd := true;
      }
      if Contains(lower, "sysinfo") {
        hasSysinfo := true;
      }
    }
    assert FlagsOf(env) == Flags(hasMpd, hasCava, hasSysinfo);
    match TypeOf(Flags(hasMpd, hasCava, hasSysinfo))
    case None => id := None;
    case Some(ty) => id := Some(DeviceId(ty, if env.binary then Binary else Json, bars, hasSysinfo));
  }
}
