/** From pairs to songs: the one-pass grouping of a play list, and songs built from a list of
    pairs or from a hash map whose iteration order is not fixed. */
module MpdSongs {
  import opened Base
  import opened MpdReplies

  // ---------- Fields ----------

  datatype Tag = File | Title | Artist | Album | Genre | Date | Track | Duration | Time | Other(key: string)

  function TagOf(key: string): Tag {
    if key == "file" then File
    else if key == "Title" then Title
    else if key == "Artist" then Artist
    else if key == "Album" then Album
    else if key == "Genre" then Genre
    else if key == "Date" then Date
    else if key == "Track" then Track
    else if key == "duration" then Duration
    else if key == "Time" then Time
    else Other(key)
  }

  /** The key of a tag that has one of its own. */
  function KeyOf(tag: Tag): (key: string)
  {
    match tag
    case File => "file"
    case Title => "Title"
    case Artist => "Artist"
    case Album => "Album"
    case Genre => "Genre"
    case Date => "Date"
    case Track => "Track"
    case Duration => "duration"
    case Time => "Time"
    case Other(key) => key
  }

  lemma KeyOfTagOf(key: string)
    ensures KeyOf(TagOf(key)) == key
  {
  }

  datatype Song = Song(
    file: string, title: Option<string>, artist: Option<string>, album: Option<string>,
    genre: Option<string>, date: Option<string>, track: Option<string>, duration: Option<nat>)

  const NO_SONG := Song("", None, None, None, None, None, None, None)

  /** How a duration in seconds and fractions, and a time in whole seconds, are read. */
  datatype Parsers = Parsers(duration: string -> Option<nat>, time: string -> Option<nat>)

  function Apply(ps: Parsers, s: Song, tag: Tag, v: string): Song {
    match tag
    case File => s.(file := v)
    case Title => s.(title := Some(v))
    case Artist => s.(artist := Some(v))
    case Album => s.(album := Some(v))
    case Genre => s.(genre := Some(v))
    case Date => s.(date := Some(v))
    case Track => s.(track := Some(v))
    case Duration => s.(duration := ps.duration(v))
    case Time => if s.duration == None then s.(duration := ps.time(v)) else s
    case Other(_) => s
  }

  /** The text field of a tag. */
  function Text(s: Song, tag: Tag): Option<string> {
    match tag
    case File => Some(s.file)
    case Title => s.title
    case Artist => s.artist
    case Album => s.album
    case Genre => s.genre
    case Date => s.date
    case Track => s.track
    case _ => None
  }

  predicate IsText(tag: Tag) {
    tag != Duration && tag != Time && !tag.Other?
  }

  lemma ApplyText(ps: Parsers, s: Song, tag: Tag, v: string, other: Tag)
    requires IsText(other)
    ensures Text(Apply(ps, s, tag, v), other) == if tag == other then Some(v) else Text(s, other)
  {
  }

  lemma SameSong(s: Song, t: Song)
    requires forall tag :: IsText(tag) ==> Text(s, tag) == Text(t, tag)
    requires s.duration == t.duration
    ensures s == t
  {
    assert Text(s, File) == Text(t, File) && Text(s, Title) == Text(t, Title);
    assert Text(s, Artist) == Text(t, Artist) && Text(s, Album) == Text(t, Album);
    assert Text(s, Genre) == Text(t, Genre) && Text(s, Date) == Text(t, Date);
    assert Text(s, Track) == Text(t, Track);
  }

  // ---------- Songs from pairs and from maps ----------

  function SongOfPairs(ps: Parsers, pairs: seq<Pair>): Song {
    if pairs == [] then NO_SONG
    else
      var last := pairs[|pairs| - 1];
      Apply(ps, SongOfPairs(ps, pairs[..|pairs| - 1]), TagOf(last.key), last.value)
  }

  /** What is left of a segment in the map: the last value of each key. */
  function MapOf(pairs: seq<Pair>): map<string, string> {
    if pairs == [] then map[]
    else
      var last := pairs[|pairs| - 1];
      MapOf(pairs[..|pairs| - 1])[last.key := last.value]
  }

  function SongInOrder(ps: Parsers, m: map<string, string>, order: seq<string>): Song
    requires forall k :: k in order ==> k in m
  {
    if order == [] then NO_SONG
    else
      var last := order[|order| - 1];
      Apply(ps, SongInOrder(ps, m, order[..|order| - 1]), TagOf(last), m[last])
  }

  /** An order in which the map may be iterated. */
  ghost predicate IsOrder(m: map<string, string>, order: seq<string>) {
    && (forall i, j :: 0 <= i < j < |order| ==> order[i] != order[j])
    && forall k :: k in order <==> k in m
  }

  /** `s` is a song the map can give rise to. */
  ghost predicate SongOfMap(ps: Parsers, m: map<string, string>, s: Song) {
    exists order :: IsOrder(m, order) && s == SongInOrder(ps, m, order)
  }

  method SongFromPairs(ps: Parsers, pairs: seq<Pair>) returns (s: Song)
    ensures s == SongOfPairs(ps, pairs)
  {
    s := NO_SONG;
    for i := 0 to |pairs|
      invariant s == SongOfPairs(ps, pairs[..i])
    {
      assert pairs[..i + 1][..i] == pairs[..i];
      s := Apply(ps, s, TagOf(pairs[i].key), pairs[i].value);
    }
    assert pairs[..|pairs|] == pairs;
  }

  method SongFromMap(ps: Parsers, m: map<string, string>) returns (s: Song)
    ensures SongOfMap(ps, m, s)
  {
    s := NO_SONG;
    var rest := m.Keys;
    ghost var order: seq<string> := [];
    while rest != {}
      invariant forall k :: k in order <==> k in m && k !in rest
      invariant forall k :: k in rest ==> k in m
      invariant forall i, j :: 0 <= i < j < |order| ==> order[i] != order[j]
      invariant s == SongInOrder(ps, m, order)
      decreases rest
    {
      var k :| k in rest;
      assert (order + [k])[..|order|] == order;
      s := Apply(ps, s, TagOf(k), m[k]);
      order := order + [k];
      rest := rest - {k};
    }
    assert IsOrder(m, order);
  }

  // ---------- Iteration order ----------

  function TextIn(m: map<string, string>, tag: Tag): Option<string> {
    if KeyOf(tag) in m then Some(m[KeyOf(tag)]) else Text(NO_SONG, tag)
  }

  /** Text fields do not depend on the order. */
  lemma {:induction false} TextOfOrder(ps: Parsers, m: map<string, string>, order: seq<string>, tag: Tag)
    requires (forall k :: k in order ==> k in m) && IsText(tag)
    ensures Text(SongInOrder(ps, m, order), tag) ==
            if KeyOf(tag) in order then Some(m[KeyOf(tag)]) else Text(NO_SONG, tag)
  {
    if order != [] {
      var init, last := order[..|order| - 1], order[|order| - 1];
      assert order == init + [last];
      TextOfOrder(ps, m, init, tag);
      ApplyText(ps, SongInOrder(ps, m, init), TagOf(last), m[last], tag);
      KeyOfTagOf(last);
      TagOfKeyOf(tag);
    }
  }

  lemma TagOfKeyOf(tag: Tag)
    requires !tag.Other?
    ensures TagOf(KeyOf(tag)) == tag
  {
  }

  const DURATION := "duration"
  const TIME := "Time"

  /** The map gives two durations, the first of which cannot be read. */
  predicate Ambiguous(ps: Parsers, m: map<string, string>) {
    DURATION in m && ps.duration(m[DURATION]) == None && TIME in m && ps.time(m[TIME]).Some?
  }

  /** The duration the map calls for, where it is not ambiguous. */
  function DurationIn(ps: Parsers, m: map<string, string>): Option<nat> {
    if DURATION in m && ps.duration(m[DURATION]).Some? then ps.duration(m[DURATION])
    else if DURATION !in m && TIME in m then ps.time(m[TIME])
    else None
  }

  /** Of the two duration keys the later one is the time. */
  predicate TimeLast(order: seq<string>) {
    if order == [] then false
    else if order[|order| - 1] == TIME then true
    else if order[|order| - 1] == DURATION then false
    else TimeLast(order[..|order| - 1])
  }

  /** The duration after the keys of `order`, which need not be all. */
  function DurationAfter(ps: Parsers, m: map<string, string>, order: seq<string>): Option<nat>
    requires forall k :: k in order ==> k in m
  {
    if DURATION in order && ps.duration(m[DURATION]).Some? then ps.duration(m[DURATION])
    else if TIME in order && (DURATION !in order || TimeLast(order)) then ps.time(m[TIME])
    else None
  }

  lemma TagOfDuration(key: string)
    ensures TagOf(key) == Duration <==> key == DURATION
    ensures TagOf(key) == Time <==> key == TIME
  {
    TagOfKeyOf(Duration);
    TagOfKeyOf(Time);
    KeyOfTagOf(key);
  }

  lemma {:induction false} DurationOfOrder(ps: Parsers, m: map<string, string>, order: seq<string>)
    requires forall k :: k in order ==> k in m
    requires forall i, j :: 0 <= i < j < |order| ==> order[i] != order[j]
    ensures SongInOrder(ps, m, order).duration == DurationAfter(ps, m, order)
  {
    if order != [] {
      var init, last := order[..|order| - 1], order[|order| - 1];
      assert order == init + [last];
      DurationOfOrder(ps, m, init);
      DurationAfterStep(ps, m, init, last, SongInOrder(ps, m, init));
    }
  }

  lemma DurationAfterStep(ps: Parsers, m: map<string, string>, init: seq<string>, last: string, s: Song)
    requires (forall k :: k in init + [last] ==> k in m) && last !in init
    requires s.duration == DurationAfter(ps, m, init)
    ensures Apply(ps, s, TagOf(last), m[last]).duration == DurationAfter(ps, m, init + [last])
  {
    TagOfDuration(last);
    TimeLastIsMember(init);
    TimeLastStep(init, last);
  }

  lemma TimeLastStep(init: seq<string>, last: string)
    ensures TimeLast(init + [last]) <==> last == TIME || (last != DURATION && TimeLast(init))
  {
    assert (init + [last])[..|init|] == init;
  }

  lemma {:induction false} TimeLastIsMember(order: seq<string>)
    ensures TimeLast(order) ==> TIME in order
    ensures TIME in order && DURATION !in order ==> TimeLast(order)
  {
    if order != [] {
      var init, last := order[..|order| - 1], order[|order| - 1];
      assert order == init + [last];
      TimeLastIsMember(init);
    }
  }

  lemma DurationSettled(ps: Parsers, m: map<string, string>, order: seq<string>)
    requires IsOrder(m, order) && !Ambiguous(ps, m)
    ensures SongInOrder(ps, m, order).duration == DurationIn(ps, m)
  {
    DurationOfOrder(ps, m, order);
    TimeLastIsMember(order);
  }

  lemma {:induction false} OrderExists(m: map<string, string>) returns (order: seq<string>)
    ensures IsOrder(m, order)
    decreases |m|
  {
    if m == map[] {
      order := [];
    } else {
      var k :| k in m;
      var rest := m - {k};
      assert rest.Keys == m.Keys - {k};
      order := OrderExists(rest);
      order := order + [k];
    }
  }

  /** An ambiguous map has two orders that disagree: the time is used only if it comes later. */
  lemma OrdersDisagree(ps: Parsers, m: map<string, string>) returns (o1: seq<string>, o2: seq<string>)
    requires Ambiguous(ps, m)
    ensures IsOrder(m, o1) && SongInOrder(ps, m, o1).duration == ps.time(m[TIME])
    ensures IsOrder(m, o2) && SongInOrder(ps, m, o2).duration == None
  {
    var init := OrderExists(m - {DURATION, TIME});
    o1, o2 := init + [DURATION, TIME], init + [TIME, DURATION];
    assert DURATION != TIME && DURATION !in init && TIME !in init;
    assert forall k :: k in o1 <==> k in init || k == DURATION || k == TIME;
    assert forall k :: k in o2 <==> k in init || k == DURATION || k == TIME;
    assert IsOrder(m, o1);
    assert IsOrder(m, o2);
    assert o1[|o1| - 1] == TIME && o2[|o2| - 1] == DURATION;
    DurationOfOrder(ps, m, o1);
    DurationOfOrder(ps, m, o2);
  }

  /** The song does not depend on the iteration order if and only if the map does not give both
      an unreadable duration and a readable time. */
  lemma OrderIndependent(ps: Parsers, m: map<string, string>)
    ensures (forall s, t :: SongOfMap(ps, m, s) && SongOfMap(ps, m, t) ==> s == t) <==> !Ambiguous(ps, m)
  {
    if Ambiguous(ps, m) {
      var o1, o2 := OrdersDisagree(ps, m);
      assert SongOfMap(ps, m, SongInOrder(ps, m, o1)) && SongOfMap(ps, m, SongInOrder(ps, m, o2));
    } else {
      forall s, t | SongOfMap(ps, m, s) && SongOfMap(ps, m, t)
        ensures s == t
      {
        SongSettled(ps, m, s);
        SongSettled(ps, m, t);
        SameSong(s, t);
      }
    }
  }

  /** Each field of a song from an unambiguous map is what the map holds for it. */
  lemma SongSettled(ps: Parsers, m: map<string, string>, s: Song)
    requires SongOfMap(ps, m, s) && !Ambiguous(ps, m)
    ensures forall tag :: IsText(tag) ==> Text(s, tag) == TextIn(m, tag)
    ensures s.duration == DurationIn(ps, m)
  {
    var order :| IsOrder(m, order) && s == SongInOrder(ps, m, order);
    DurationSettled(ps, m, order);
    forall tag | IsText(tag)
      ensures Text(s, tag) == TextIn(m, tag)
    {
      TextOfOrder(ps, m, order, tag);
    }
  }

  // ---------- Fields by their keys ----------

  function Lookup(m: map<string, string>, key: string): Option<string> {
    if key in m then Some(m[key]) else None
  }

  /** The value of the last pair with that key. */
  function LastValue(pairs: seq<Pair>, key: string): Option<string> {
    if pairs == [] then None
    else if pairs[|pairs| - 1].key == key then Some(pairs[|pairs| - 1].value)
    else LastValue(pairs[..|pairs| - 1], key)
  }

  lemma {:induction false} LastInMap(pairs: seq<Pair>, key: string)
    ensures Lookup(MapOf(pairs), key) == LastValue(pairs, key)
  {
    if pairs != [] {
      LastInMap(pairs[..|pairs| - 1], key);
    }
  }

  lemma TextSettled(ps: Parsers, m: map<string, string>, s: Song, tag: Tag)
    requires SongOfMap(ps, m, s) && IsText(tag)
    ensures Text(s, tag) == TextIn(m, tag)
  {
    var order :| IsOrder(m, order) && s == SongInOrder(ps, m, order);
    TextOfOrder(ps, m, order, tag);
  }

  /** Every text field of a song from a map, in whatever order that is iterated, is what the map holds
      under the field's key. */
  lemma MapFields(ps: Parsers, m: map<string, string>, s: Song)
    requires SongOfMap(ps, m, s)
    ensures s.file == if "file" in m then m["file"] else ""
    ensures s.title == Lookup(m, "Title") && s.artist == Lookup(m, "Artist") && s.album == Lookup(m, "Album")
    ensures s.genre == Lookup(m, "Genre") && s.date == Lookup(m, "Date") && s.track == Lookup(m, "Track")
  {
    TextSettled(ps, m, s, File);
    TextSettled(ps, m, s, Title);
    TextSettled(ps, m, s, Artist);
    TextSettled(ps, m, s, Album);
    TextSettled(ps, m, s, Genre);
    TextSettled(ps, m, s, Date);
    TextSettled(ps, m, s, Track);
  }

  /** Every text field of a song from pairs is the value of the last pair with the field's key. */
  lemma PairFields(ps: Parsers, pairs: seq<Pair>)
    ensures var s := SongOfPairs(ps, pairs);
            && s.file == (match LastValue(pairs, "file") case None => "" case Some(v) => v)
            && s.title == LastValue(pairs, "Title") && s.artist == LastValue(pairs, "Artist")
            && s.album == LastValue(pairs, "Album") && s.genre == LastValue(pairs, "Genre")
            && s.date == LastValue(pairs, "Date") && s.track == LastValue(pairs, "Track")
  {
    PairText(ps, pairs, File);
    PairText(ps, pairs, Title);
    PairText(ps, pairs, Artist);
    PairText(ps, pairs, Album);
    PairText(ps, pairs, Genre);
    PairText(ps, pairs, Date);
    PairText(ps, pairs, Track);
  }

  lemma PairText(ps: Parsers, pairs: seq<Pair>, tag: Tag)
    requires IsText(tag)
    ensures Text(SongOfPairs(ps, pairs), tag) ==
            if LastValue(pairs, KeyOf(tag)).Some? then LastValue(pairs, KeyOf(tag)) else Text(NO_SONG, tag)
  {
    TextOfPairs(ps, pairs, tag);
    LastInMap(pairs, KeyOf(tag));
  }

  // ---------- Map against list ----------

  predicate AtMostOnce(pairs: seq<Pair>, key: string) {
    forall i, j :: 0 <= i < j < |pairs| ==> !(pairs[i].key == key && pairs[j].key == key)
  }

  lemma {:induction false} InMapOf(pairs: seq<Pair>, key: string)
    ensures key in MapOf(pairs) <==> exists i :: 0 <= i < |pairs| && pairs[i].key == key
  {
    if pairs != [] {
      var init, last := pairs[..|pairs| - 1], pairs[|pairs| - 1];
      InMapOf(init, key);
      if key in MapOf(init) {
        var i :| 0 <= i < |init| && init[i].key == key;
        assert pairs[i].key == key;
      }
      if i :| 0 <= i < |pairs| && pairs[i].key == key {
        assert i < |init| ==> init[i].key == key;
      }
    }
  }

  lemma {:induction false} TextOfPairs(ps: Parsers, pairs: seq<Pair>, tag: Tag)
    requires IsText(tag)
    ensures Text(SongOfPairs(ps, pairs), tag) == TextIn(MapOf(pairs), tag)
  {
    if pairs != [] {
      var init, last := pairs[..|pairs| - 1], pairs[|pairs| - 1];
      TextOfPairs(ps, init, tag);
      ApplyText(ps, SongOfPairs(ps, init), TagOf(last.key), last.value, tag);
      KeyOfTagOf(last.key);
      TagOfKeyOf(tag);
    }
  }

  /** `d` is a duration the map may give rise to. */
  predicate DurationFits(ps: Parsers, m: map<string, string>, d: Option<nat>) {
    if Ambiguous(ps, m) then d == None || d == ps.time(m[TIME]) else d == DurationIn(ps, m)
  }

  lemma {:induction false} DurationOfPairs(ps: Parsers, pairs: seq<Pair>)
    requires AtMostOnce(pairs, DURATION) && AtMostOnce(pairs, TIME)
    ensures DurationFits(ps, MapOf(pairs), SongOfPairs(ps, pairs).duration)
  {
    if pairs != [] {
      var init, last := pairs[..|pairs| - 1], pairs[|pairs| - 1];
      assert forall i :: 0 <= i < |init| ==> init[i] == pairs[i];
      DurationOfPairs(ps, init);
      InMapOf(init, DURATION);
      InMapOf(init, TIME);
      DurationStep(ps, MapOf(init), SongOfPairs(ps, init), last);
    }
  }

  lemma DurationStep(ps: Parsers, m: map<string, string>, s: Song, p: Pair)
    requires DurationFits(ps, m, s.duration)
    requires p.key == DURATION || p.key == TIME ==> p.key !in m
    ensures DurationFits(ps, m[p.key := p.value], Apply(ps, s, TagOf(p.key), p.value).duration)
  {
    TagOfDuration(p.key);
    assert DURATION != TIME;
  }

  /** The first time that can be read since the last duration. */
  function TimeSince(ps: Parsers, pairs: seq<Pair>): Option<nat> {
    if pairs == [] then None
    else
      var earlier, last := TimeSince(ps, pairs[..|pairs| - 1]), pairs[|pairs| - 1];
      if last.key == DURATION then None
      else if last.key == TIME && earlier == None then ps.time(last.value)
      else earlier
  }

  /** The duration of the song of a list: the last one given if it can be read, and otherwise the
      first readable time since. */
  lemma {:induction false} DurationOfList(ps: Parsers, pairs: seq<Pair>)
    ensures var m := MapOf(pairs);
            SongOfPairs(ps, pairs).duration ==
            if DURATION in m && ps.duration(m[DURATION]).Some? then ps.duration(m[DURATION]) else TimeSince(ps, pairs)
  {
    if pairs != [] {
      DurationOfList(ps, pairs[..|pairs| - 1]);
      TagOfDuration(pairs[|pairs| - 1].key);
    }
  }

  /** A segment whose last duration can be read; or can not, and then no time since can and neither
      can the last time; or that has none, and its first readable time reads like its last time. */
  predicate Agrees(ps: Parsers, pairs: seq<Pair>) {
    var m := MapOf(pairs);
    if DURATION in m then
      ps.duration(m[DURATION]).Some? || (TimeSince(ps, pairs) == None && (TIME in m ==> ps.time(m[TIME]) == None))
    else TimeSince(ps, pairs) == (if TIME in m then ps.time(m[TIME]) else None)
  }

  lemma AgreesMeans(ps: Parsers, pairs: seq<Pair>)
    ensures Agrees(ps, pairs) <==>
            !Ambiguous(ps, MapOf(pairs)) && SongOfPairs(ps, pairs).duration == DurationIn(ps, MapOf(pairs))
  {
    DurationOfList(ps, pairs);
  }

  lemma AtMostOnceAgrees(ps: Parsers, pairs: seq<Pair>)
    requires AtMostOnce(pairs, DURATION) && AtMostOnce(pairs, TIME) && !Ambiguous(ps, MapOf(pairs))
    ensures Agrees(ps, pairs)
  {
    DurationOfPairs(ps, pairs);
    AgreesMeans(ps, pairs);
  }

  lemma SongAgrees(ps: Parsers, pairs: seq<Pair>, s: Song)
    requires Agrees(ps, pairs) && SongOfMap(ps, MapOf(pairs), s)
    ensures s == SongOfPairs(ps, pairs)
  {
    AgreesMeans(ps, pairs);
    SongSettled(ps, MapOf(pairs), s);
    forall tag | IsText(tag)
      ensures Text(s, tag) == Text(SongOfPairs(ps, pairs), tag)
    {
      TextOfPairs(ps, pairs, tag);
    }
    SameSong(s, SongOfPairs(ps, pairs));
  }

  lemma SongDisagrees(ps: Parsers, pairs: seq<Pair>) returns (s: Song)
    requires !Agrees(ps, pairs)
    ensures SongOfMap(ps, MapOf(pairs), s) && s != SongOfPairs(ps, pairs)
  {
    var m := MapOf(pairs);
    AgreesMeans(ps, pairs);
    if Ambiguous(ps, m) {
      var o1, o2 := OrdersDisagree(ps, m);
      s := SongInOrder(ps, m, if SongInOrder(ps, m, o1) == SongOfPairs(ps, pairs) then o2 else o1);
    } else {
      var order := OrderExists(m);
      DurationSettled(ps, m, order);
      s := SongInOrder(ps, m, order);
    }
  }

  /** Whatever the iteration order, the map gives rise to `song`. */
  ghost predicate AlwaysGives(ps: Parsers, m: map<string, string>, song: Song) {
    forall s :: SongOfMap(ps, m, s) ==> s == song
  }

  /** The song from the map of a segment is the song from its pairs in every iteration order, if
      and only if the segment's durations and times agree. */
  lemma MapAgreesWithPairs(ps: Parsers, pairs: seq<Pair>)
    ensures AlwaysGives(ps, MapOf(pairs), SongOfPairs(ps, pairs)) <==> Agrees(ps, pairs)
  {
    if Agrees(ps, pairs) {
      var m, song := MapOf(pairs), SongOfPairs(ps, pairs);
      forall s | SongOfMap(ps, m, s)
        ensures s == song
      {
        SongAgrees(ps, pairs, s);
      }
    } else {
      var s := SongDisagrees(ps, pairs);
    }
  }

  // ---------- Grouping ----------

  const FILE := "file"

  /** The pairs split before every file key but a leading one. */
  function Segments(pairs: seq<Pair>): (segs: seq<seq<Pair>>)
    ensures segs == [] <==> pairs == []
    ensures forall i :: 0 <= i < |segs| ==> segs[i] != []
  {
    if pairs == [] then []
    else
      var init, last := Segments(pairs[..|pairs| - 1]), pairs[|pairs| - 1];
      if init == [] || last.key == FILE then init + [[last]]
      else init[..|init| - 1] + [init[|init| - 1] + [last]]
  }

  function FileCount(pairs: seq<Pair>): nat {
    if pairs == [] then 0
    else FileCount(pairs[..|pairs| - 1]) + if pairs[|pairs| - 1].key == FILE then 1 else 0
  }

  /** Only the first pair of a segment may be a file, and it is one in every segment but the
      first. */
  ghost predicate FilesLead(segs: seq<seq<Pair>>)
  {
    && (forall i, j :: 0 <= i < |segs| && 0 < j < |segs[i]| ==> segs[i][j].key != FILE)
    && forall i :: 0 < i < |segs| ==> segs[i] != [] && segs[i][0].key == FILE
  }

  lemma {:induction false} SegmentsJoin(pairs: seq<Pair>)
    ensures Flatten(Segments(pairs)) == pairs
  {
    if pairs != [] {
      var init, last := Segments(pairs[..|pairs| - 1]), pairs[|pairs| - 1];
      SegmentsJoin(pairs[..|pairs| - 1]);
      assert pairs == pairs[..|pairs| - 1] + [last];
      if init == [] || last.key == FILE {
        FlattenAppend(init, [last]);
      } else {
        var front, back := init[..|init| - 1], init[|init| - 1];
        assert init == front + [back];
        FlattenAppend(front, back);
        FlattenAppend(front, back + [last]);
      }
    }
  }

  /** One more pair either opens a segment or joins the last one. */
  lemma SegmentsGrow(pairs: seq<Pair>, p: Pair)
    ensures Segments(pairs + [p]) ==
            var segs := Segments(pairs);
            if pairs == [] || p.key == FILE then segs + [[p]]
            else segs[..|segs| - 1] + [segs[|segs| - 1] + [p]]
  {
    assert (pairs + [p])[..|pairs|] == pairs;
  }

  lemma FilesLeadOpens(segs: seq<seq<Pair>>, p: Pair)
    requires FilesLead(segs) && (segs != [] ==> p.key == FILE)
    ensures FilesLead(segs + [[p]])
  {
  }

  lemma FilesLeadJoins(segs: seq<seq<Pair>>, p: Pair)
    requires FilesLead(segs) && segs != [] && segs[|segs| - 1] != [] && p.key != FILE
    ensures FilesLead(segs[..|segs| - 1] + [segs[|segs| - 1] + [p]])
  {
  }

  /** A file heads every segment but perhaps the first, so there are as many songs as files when
      the reply starts with one. */
  lemma {:induction false} SegmentsStartWithFiles(pairs: seq<Pair>)
    ensures FilesLead(Segments(pairs))
    ensures pairs != [] ==> |Segments(pairs)| == FileCount(pairs) + if pairs[0].key == FILE then 0 else 1
  {
    if pairs != [] {
      var init, last := pairs[..|pairs| - 1], pairs[|pairs| - 1];
      SegmentsStartWithFiles(init);
      assert init != [] ==> init[0] == pairs[0];
      assert FileCount([]) == 0;
      if init == [] || last.key == FILE {
        FilesLeadOpens(Segments(init), last);
      } else {
        FilesLeadJoins(Segments(init), last);
      }
    }
  }

  lemma {:induction false} SegmentsAppend(pairs: seq<Pair>, seg: seq<Pair>)
    requires seg != [] && (pairs != [] ==> seg[0].key == FILE)
    requires forall j :: 0 < j < |seg| ==> seg[j].key != FILE
    ensures Segments(pairs + seg) == Segments(pairs) + [seg]
    decreases |seg|
  {
    var init, last := seg[..|seg| - 1], seg[|seg| - 1];
    assert seg == init + [last];
    assert pairs + seg == pairs + init + [last];
    SegmentsGrow(pairs + init, last);
    if init == [] {
      assert pairs + init == pairs;
    } else {
      SegmentsAppend(pairs, init);
      assert (Segments(pairs) + [init])[..|Segments(pairs)|] == Segments(pairs);
    }
  }

  /** There is no other way to split the pairs so that a file heads every segment but perhaps the
      first and stands nowhere else. */
  lemma {:induction false} SegmentsUnique(segs: seq<seq<Pair>>)
    requires FilesLead(segs) && forall i :: 0 <= i < |segs| ==> segs[i] != []
    ensures Segments(Flatten(segs)) == segs
  {
    if segs != [] {
      var front, back := segs[..|segs| - 1], segs[|segs| - 1];
      assert segs == front + [back];
      FilesLeadPrefix(segs);
      SegmentsUnique(front);
      FlattenAppend(front, back);
      if front == [] {
        assert Flatten(front) == [];
      }
      SegmentsAppend(Flatten(front), back);
    }
  }

  lemma FilesLeadPrefix(segs: seq<seq<Pair>>)
    requires FilesLead(segs) && segs != []
    ensures FilesLead(segs[..|segs| - 1])
  {
  }

  /** `songs` are songs the maps of `segs` may give rise to, one each and in order. */
  ghost predicate SongsOf(ps: Parsers, segs: seq<seq<Pair>>, songs: seq<Song>) {
    |songs| == |segs| && forall i :: 0 <= i < |segs| ==> SongOfMap(ps, MapOf(segs[i]), songs[i])
  }

  lemma SongsGrow(ps: Parsers, segs: seq<seq<Pair>>, songs: seq<Song>, seg: seq<Pair>, song: Song)
    requires SongsOf(ps, segs, songs) && SongOfMap(ps, MapOf(seg), song)
    ensures SongsOf(ps, segs + [seg], songs + [song])
  {
  }

  /** What the one-pass loop holds: the songs of all segments but the last, and the map of that. */
  ghost predicate Grouped(ps: Parsers, pairs: seq<Pair>, songs: seq<Song>, current: map<string, string>) {
    var segs := Segments(pairs);
    if pairs == [] then songs == [] && current == map[]
    else SongsOf(ps, segs[..|segs| - 1], songs) && current == MapOf(segs[|segs| - 1])
  }

  lemma MapOfGrows(seg: seq<Pair>, p: Pair)
    ensures MapOf(seg + [p]) == MapOf(seg)[p.key := p.value]
  {
    assert (seg + [p])[..|seg|] == seg;
  }

  lemma GroupedIsEmpty(ps: Parsers, pairs: seq<Pair>, songs: seq<Song>, current: map<string, string>)
    requires Grouped(ps, pairs, songs, current)
    ensures current == map[] <==> pairs == []
  {
    if pairs != [] {
      var segs := Segments(pairs);
      var seg := segs[|segs| - 1];
      InMapOf(seg, seg[0].key);
      assert seg[0].key in current;
    }
  }

  lemma GroupedOpens(ps: Parsers, pairs: seq<Pair>, songs: seq<Song>, current: map<string, string>, song: Song, p: Pair)
    requires Grouped(ps, pairs, songs, current) && pairs != [] && p.key == FILE && SongOfMap(ps, current, song)
    ensures Grouped(ps, pairs + [p], songs + [song], map[p.key := p.value])
  {
    SegmentsGrow(pairs, p);
    var segs := Segments(pairs);
    SongsGrow(ps, segs[..|segs| - 1], songs, segs[|segs| - 1], song);
    assert segs == segs[..|segs| - 1] + [segs[|segs| - 1]];
    assert (segs + [[p]])[..|segs|] == segs;
    MapOfGrows([], p);
    assert [] + [p] == [p];
  }

  lemma GroupedJoins(ps: Parsers, pairs: seq<Pair>, songs: seq<Song>, current: map<string, string>, p: Pair)
    requires Grouped(ps, pairs, songs, current) && (pairs == [] || p.key != FILE)
    ensures Grouped(ps, pairs + [p], songs, current[p.key := p.value])
  {
    SegmentsGrow(pairs, p);
    var segs := Segments(pairs);
    if pairs == [] {
      MapOfGrows([], p);
      assert [] + [p] == [p];
      assert Segments(pairs + [p]) == [[p]];
    } else {
      MapOfGrows(segs[|segs| - 1], p);
      assert Segments(pairs + [p])[..|segs| - 1] == segs[..|segs| - 1];
    }
  }

  lemma GroupedEnds(ps: Parsers, pairs: seq<Pair>, songs: seq<Song>, current: map<string, string>, song: Song)
    requires Grouped(ps, pairs, songs, current) && pairs != [] && SongOfMap(ps, current, song)
    ensures SongsOf(ps, Segments(pairs), songs + [song])
  {
    var segs := Segments(pairs);
    SongsGrow(ps, segs[..|segs| - 1], songs, segs[|segs| - 1], song);
    assert segs == segs[..|segs| - 1] + [segs[|segs| - 1]];
  }

  /** The one-pass loop gives the songs of splitting first. */
  method PlaylistInfo(ps: Parsers, pairs: seq<Pair>) returns (songs: seq<Song>)
    ensures SongsOf(ps, Segments(pairs), songs)
  {
    songs := [];
    var current: map<string, string> := map[];
    for i := 0 to |pairs|
      invariant Grouped(ps, pairs[..i], songs, current)
    {
      var p := pairs[i];
      assert pairs[..i + 1] == pairs[..i] + [p];
      GroupedIsEmpty(ps, pairs[..i], songs, current);
      if p.key == FILE && current != map[] {
        var song := SongFromMap(ps, current);
        GroupedOpens(ps, pairs[..i], songs, current, song, p);
        songs := songs + [song];
        current := map[];
      } else {
        GroupedJoins(ps, pairs[..i], songs, current, p);
      }
      current := current[p.key := p.value];
    }
    assert pairs[..|pairs|] == pairs;
    GroupedIsEmpty(ps, pairs, songs, current);
    if current != map[] {
      var song := SongFromMap(ps, current);
      GroupedEnds(ps, pairs, songs, current, song);
      songs := songs + [song];
    }
  }

  function FoldEach(ps: Parsers, segs: seq<seq<Pair>>): (songs: seq<Song>)
    ensures |songs| == |segs|
    ensures forall i :: 0 <= i < |segs| ==> songs[i] == SongOfPairs(ps, segs[i])
  {
    if segs == [] then [] else [SongOfPairs(ps, segs[0])] + FoldEach(ps, segs[1..])
  }

  lemma {:induction false} SomeSongs(ps: Parsers, segs: seq<seq<Pair>>) returns (songs: seq<Song>)
    ensures SongsOf(ps, segs, songs)
  {
    if segs == [] {
      songs := [];
    } else {
      var init, last := segs[..|segs| - 1], segs[|segs| - 1];
      songs := SomeSongs(ps, init);
      var order := OrderExists(MapOf(last));
      assert SongOfMap(ps, MapOf(last), SongInOrder(ps, MapOf(last), order));
      SongsGrow(ps, init, songs, last, SongInOrder(ps, MapOf(last), order));
      assert segs == init + [last];
      songs := songs + [SongInOrder(ps, MapOf(last), order)];
    }
  }

  /** The one-pass grouping equals splitting and then folding each segment's pairs, however the
      hash maps are iterated, if and only if every segment's durations and times agree. */
  lemma GroupingIsSplitThenFold(ps: Parsers, pairs: seq<Pair>)
    ensures (forall songs :: SongsOf(ps, Segments(pairs), songs) ==> songs == FoldEach(ps, Segments(pairs)))
            <==> forall i :: 0 <= i < |Segments(pairs)| ==> Agrees(ps, Segments(pairs)[i])
  {
    var segs := Segments(pairs);
    if i :| 0 <= i < |segs| && !Agrees(ps, segs[i]) {
      var s := SongDisagrees(ps, segs[i]);
      var songs := SomeSongs(ps, segs);
      assert SongsOf(ps, segs, songs[i := s]) && songs[i := s][i] != FoldEach(ps, segs)[i];
    } else {
      forall songs | SongsOf(ps, segs, songs)
        ensures songs == FoldEach(ps, segs)
      {
        AllAgree(ps, segs, songs);
      }
    }
  }

  lemma AllAgree(ps: Parsers, segs: seq<seq<Pair>>, songs: seq<Song>)
    requires SongsOf(ps, segs, songs) && forall i :: 0 <= i < |segs| ==> Agrees(ps, segs[i])
    ensures songs == FoldEach(ps, segs)
  {
    forall i | 0 <= i < |segs|
      ensures songs[i] == FoldEach(ps, segs)[i]
    {
      assert Agrees(ps, segs[i]) && SongOfMap(ps, MapOf(segs[i]), songs[i]);
      SongAgrees(ps, segs[i], songs[i]);
    }
  }
}
