/** Reading the music player's replies: `key: value` lines closed by an OK or an ACK line. */
module MpdReplies {
  import opened Base

  datatype Pair = Pair(key: string, value: string)

  datatype Reply = Pairs(pairs: seq<Pair>) | Failure(message: string) | Closed

  const SEPARATOR: string := ": "
  const ACK: string := "ACK "

  // ---------- Lines ----------

  /** The length of the first line, its newline included if there is one. */
  function LineLength(s: string): (n: nat)
    ensures n <= |s| && (s != "" ==> n > 0)
    ensures forall i :: 0 <= i < n - 1 ==> s[i] != '\n'
    ensures n < |s| ==> n > 0 && s[n - 1] == '\n'
  {
    if s == "" then 0
    else if s[0] == '\n' then 1
    else 1 + LineLength(s[1..])
  }

  predicate LineBreak(c: char) {
    c == '\r' || c == '\n'
  }

  function TrimEnd(s: string): (r: string)
    ensures r <= s
    ensures r != "" ==> !LineBreak(r[|r| - 1])
  {
    if s != "" && LineBreak(s[|s| - 1]) then TrimEnd(s[..|s| - 1]) else s
  }

  lemma MatchesShift(s: string, part: string)
    requires s != ""
    ensures forall i: nat {:trigger MatchesAt(s, part, i)} ::
              i > 0 ==> (MatchesAt(s, part, i) <==> MatchesAt(s[1..], part, i - 1))
    ensures forall i: nat {:trigger MatchesAt(s[1..], part, i)} ::
              MatchesAt(s[1..], part, i) <==> MatchesAt(s, part, i + 1)
  {
    forall i: nat | i > 0
      ensures MatchesAt(s, part, i) <==> MatchesAt(s[1..], part, i - 1)
    {
      if i + |part| <= |s| {
        var t := s[1..];
        var here, there := s[i..i + |part|], t[i - 1..i - 1 + |part|];
        assert forall j :: 0 <= j < |part| ==> here[j] == s[i + j] && there[j] == t[i - 1 + j];
        assert here == there;
      }
    }
  }

  /** Where the first separator starts, or |s|. */
  function FindSeparator(s: string): (p: nat)
    ensures p <= |s|
    ensures p < |s| ==> MatchesAt(s, SEPARATOR, p)
    ensures forall i: nat :: i < p ==> !MatchesAt(s, SEPARATOR, i)
  {
    if s == "" || MatchesAt(s, SEPARATOR, 0) then 0
    else
      MatchesShift(s, SEPARATOR);
      1 + FindSeparator(s[1..])
  }

  datatype Line = Ok | Ack(message: string) | Field(pair: Pair) | Ignored

  function ParseLine(trimmed: string): Line {
    if trimmed == "OK" then Ok
    else if ACK <= trimmed then Ack(trimmed[|ACK|..])
    else
      var p := FindSeparator(trimmed);
      if p < |trimmed| then Field(Pair(trimmed[..p], trimmed[p + |SEPARATOR|..])) else Ignored
  }

  // ---------- Replies ----------

  function Prepend(pairs: seq<Pair>, r: (Reply, string)): (Reply, string) {
    match r.0
    case Pairs(ps) => (Pairs(pairs + ps), r.1)
    case _ => r
  }

  /** The next reply in the stream and what follows it. */
  function Read(s: string): (Reply, string)
    decreases |s|
  {
    if s == "" then (Closed, "")
    else
      var n := LineLength(s);
      match ParseLine(TrimEnd(s[..n]))
      case Ok => (Pairs([]), s[n..])
      case Ack(m) => (Failure(m), s[n..])
      case Field(p) => Prepend([p], Read(s[n..]))
      case Ignored => Read(s[n..])
  }

  lemma PrependTwice(first: seq<Pair>, second: seq<Pair>, r: (Reply, string))
    ensures Prepend(first, Prepend(second, r)) == Prepend(first + second, r)
  {
    if r.0.Pairs? {
      assert first + (second + r.0.pairs) == first + second + r.0.pairs;
    }
  }

  lemma PrependNothing(r: (Reply, string))
    ensures Prepend([], r) == r
  {
    if r.0.Pairs? {
      assert [] + r.0.pairs == r.0.pairs;
    }
  }

  class MpdReader {
    /** The bytes the server has sent and the client has not read. */
    var input: string

    method ReadLine() returns (line: string)
      modifies this
      ensures line == old(input)[..LineLength(old(input))] && input == old(input)[LineLength(old(input))..]
    {
      var n := 0;
      while n < |input| && (n == 0 || input[n - 1] != '\n')
        invariant n <= |input|
        invariant forall i :: 0 <= i < n - 1 ==> input[i] != '\n'
      {
        n := n + 1;
      }
      line := input[..n];
      input := input[n..];
    }

    method ReadPairs() returns (reply: Reply)
      modifies this
      ensures (reply, input) == Read(old(input))
    {
      var pairs: seq<Pair> := [];
      PrependNothing(Read(input));
      while true
        invariant Read(old(input)) == Prepend(pairs, Read(input))
        decreases |input|
      {
        var line := ReadLine();
        if line == "" {
          return Closed;
        }
        match ParseLine(TrimEnd(line)) {
          case Ok =>
            assert pairs + [] == pairs;
            return Pairs(pairs);
          case Ack(message) => return Failure(message);
          case Field(pair) =>
            PrependTwice(pairs, [pair], Read(input));
            pairs := pairs + [pair];
          case Ignored =>
        }
      }
    }
  }

  // ---------- Printing ----------

  function PairLine(p: Pair): string {
    p.key + SEPARATOR + p.value
  }

  function PrintPairs(pairs: seq<Pair>): string {
    if pairs == [] then "" else PairLine(pairs[0]) + "\n" + PrintPairs(pairs[1..])
  }

  function PrintOk(pairs: seq<Pair>): string {
    PrintPairs(pairs) + "OK\n"
  }

  predicate NoNewline(s: string) {
    forall i :: 0 <= i < |s| ==> s[i] != '\n'
  }

  predicate NoTrailingReturn(s: string) {
    s == "" || s[|s| - 1] != '\r'
  }

  /** What the protocol can carry as one pair. */
  predicate Clean(p: Pair) {
    && NoNewline(p.key) && NoNewline(p.value)
    && !Contains(p.key, SEPARATOR)
    && !(ACK <= p.key)
    && NoTrailingReturn(p.value)
  }

  predicate AllClean(pairs: seq<Pair>) {
    forall i :: 0 <= i < |pairs| ==> Clean(pairs[i])
  }

  lemma LineLengthIs(s: string, n: nat)
    requires 0 < n <= |s| && s[n - 1] == '\n' && forall i :: 0 <= i < n - 1 ==> s[i] != '\n'
    ensures LineLength(s) == n
  {
    var m := LineLength(s);
    assert m > 0 && (m < |s| ==> s[m - 1] == '\n');
  }

  /** A line that ends in no line break is read whole. */
  lemma ReadsLine(line: string, rest: string)
    requires NoNewline(line) && line != "" && !LineBreak(line[|line| - 1])
    ensures var s := line + "\n" + rest;
            LineLength(s) == |line| + 1 && s[..|line| + 1] == line + "\n" && s[|line| + 1..] == rest
    ensures TrimEnd(line + "\n") == line
  {
    LineEnds(line, rest);
    TrimsLine(line);
  }

  lemma LineEnds(line: string, rest: string)
    requires NoNewline(line)
    ensures LineLength(line + "\n" + rest) == |line| + 1
  {
    var s := line + "\n" + rest;
    assert s[|line|] == '\n' && forall i :: 0 <= i < |line| ==> s[i] == line[i];
    LineLengthIs(s, |line| + 1);
  }

  lemma ParsesPair(p: Pair)
    requires Clean(p)
    ensures ParseLine(PairLine(p)) == Field(p)
  {
    var line := PairLine(p);
    var k := |p.key|;
    assert line[k] == ':' && line[k + 1] == ' ';
    assert MatchesAt(line, SEPARATOR, k);
    forall i: nat | i < k
      ensures !MatchesAt(line, SEPARATOR, i)
    {
      if MatchesAt(line, SEPARATOR, i) {
        assert line[i..i + 2] == SEPARATOR;
        assert line[i + 1] == ' ';
        assert i + 1 < k;
        assert p.key[i..i + 2] == line[i..i + 2];
        assert MatchesAt(p.key, SEPARATOR, i);
      }
    }
    assert FindSeparator(line) == k;
    NotReserved(p.key, p.value);
    assert line[..k] == p.key && line[k + 2..] == p.value;
  }

  lemma NotReserved(key: string, value: string)
    requires !(ACK <= key)
    ensures key + SEPARATOR + value != "OK" && !(ACK <= key + SEPARATOR + value)
  {
    var line := key + SEPARATOR + value;
    assert line[|key|] == ':' && line[|key| + 1] == ' ';
    assert ACK[3] == ' ' && ACK[2] == 'K' && ACK[1] == 'C' && ACK[0] == 'A';
    assert |key| >= 4 ==> line[..4] == key[..4];
  }

  lemma ReadsPair(p: Pair, rest: string)
    requires Clean(p)
    ensures Read(PairLine(p) + "\n" + rest) == Prepend([p], Read(rest))
  {
    var line := PairLine(p);
    assert line[|line| - 1] == if p.value == "" then ' ' else p.value[|p.value| - 1];
    ReadsLine(line, rest);
    ParsesPair(p);
  }

  /** Clean pairs come back, and reading goes on right behind them. */
  lemma {:induction false} CleanPairsReturn(pairs: seq<Pair>, tail: string)
    requires AllClean(pairs)
    ensures Read(PrintPairs(pairs) + tail) == Prepend(pairs, Read(tail))
    decreases |pairs|
  {
    if pairs == [] {
      assert PrintPairs(pairs) + tail == tail;
      PrependNothing(Read(tail));
    } else {
      var p, others := pairs[0], pairs[1..];
      CleanPairsReturn(others, tail);
      PrintNext(pairs, tail);
      ReadsPair(p, PrintPairs(others) + tail);
      PrependTwice([p], others, Read(tail));
      assert pairs == [p] + others;
    }
  }

  lemma PrintNext(pairs: seq<Pair>, tail: string)
    requires pairs != []
    ensures PrintPairs(pairs) + tail == PairLine(pairs[0]) + "\n" + (PrintPairs(pairs[1..]) + tail)
  {
    Reassociate(PairLine(pairs[0]) + "\n", PrintPairs(pairs[1..]), tail);
  }

  /** Whatever is read as a pair is clean. */
  lemma ParsedIsClean(line: string)
    requires NoNewline(line) && (line != "" ==> !LineBreak(line[|line| - 1])) && ParseLine(line).Field?
    ensures Clean(ParseLine(line).pair)
  {
    var k := FindSeparator(line);
    var key, value := line[..k], line[k + 2..];
    forall i: nat | i <= |key|
      ensures !MatchesAt(key, SEPARATOR, i)
    {
      if MatchesAt(key, SEPARATOR, i) {
        assert key[i..i + 2] == line[i..i + 2];
        assert MatchesAt(line, SEPARATOR, i);
      }
    }
    assert |key| >= 4 ==> line[..4] == key[..4];
    assert value != "" ==> value[|value| - 1] == line[|line| - 1];
  }

  lemma TrimmedLine(s: string)
    requires s != ""
    ensures NoNewline(TrimEnd(s[..LineLength(s)]))
  {
    var line := s[..LineLength(s)];
    var trimmed := TrimEnd(line);
    assert forall i :: 0 <= i < |trimmed| ==> trimmed[i] == line[i];
  }

  lemma {:induction false} ReadIsClean(s: string)
    ensures Read(s).0.Pairs? ==> AllClean(Read(s).0.pairs)
    decreases |s|
  {
    if s != "" {
      var n := LineLength(s);
      var trimmed := TrimEnd(s[..n]);
      TrimmedLine(s);
      if ParseLine(trimmed).Field? {
        ParsedIsClean(trimmed);
        ReadIsClean(s[n..]);
      } else if ParseLine(trimmed) == Ignored {
        ReadIsClean(s[n..]);
      }
    }
  }

  lemma ReadsOk(rest: string)
    ensures Read("OK\n" + rest) == (Pairs([]), rest)
  {
    var line := "OK";
    ReadsLine(line, rest);
    assert "OK\n" + rest == line + "\n" + rest;
  }

  lemma CleanReplyReturns(pairs: seq<Pair>, rest: string)
    requires AllClean(pairs)
    ensures Read(PrintOk(pairs) + rest) == (Pairs(pairs), rest)
  {
    var tail := "OK\n" + rest;
    CleanPairsReturn(pairs, tail);
    ReadsOk(rest);
    Reassociate(PrintPairs(pairs), "OK\n", rest);
    assert Prepend(pairs, (Pairs([]), rest)) == (Pairs(pairs), rest) by {
      assert pairs + [] == pairs;
    }
  }

  // ---------- Other lines ----------

  /** A line that is neither an OK nor a failure line and has no separator is skipped. */
  lemma NoiseIgnored(line: string, rest: string)
    requires NoNewline(line) && (line != "" ==> !LineBreak(line[|line| - 1]))
    requires line != "OK" && !(ACK <= line) && !Contains(line, SEPARATOR)
    ensures Read(line + "\n" + rest) == Read(rest)
  {
    var s := line + "\n" + rest;
    LineEnds(line, rest);
    assert s[..|line| + 1] == line + "\n" && s[|line| + 1..] == rest;
    TrimsLine(line);
    assert FindSeparator(line) < |line| ==> MatchesAt(line, SEPARATOR, FindSeparator(line));
  }

  lemma TrimsLine(line: string)
    requires line != "" ==> !LineBreak(line[|line| - 1])
    ensures TrimEnd(line + "\n") == line
  {
    assert (line + "\n")[..|line|] == line;
    assert TrimEnd(line + "\n") == TrimEnd(line);
  }

  /** A stream that ends before the reply does: whatever pairs were read, the connection counts as
      closed, even in the middle of a line. */
  lemma CutOffIsClosed(pairs: seq<Pair>, last: string)
    requires AllClean(pairs) && NoNewline(last) && TrimEnd(last) != "OK" && !(ACK <= TrimEnd(last))
    ensures Read(PrintPairs(pairs) + last) == (Closed, "")
  {
    CleanPairsReturn(pairs, last);
    if last != "" {
      WholeIsLine(last);
      assert last[..|last|] == last && last[|last|..] == "";
      assert Read("") == (Closed, "");
    }
  }

  lemma {:induction false} WholeIsLine(s: string)
    requires NoNewline(s)
    ensures LineLength(s) == |s|
  {
    if s != "" {
      WholeIsLine(s[1..]);
    }
  }

  /** Printed pairs are read back, with nothing lost behind them, if and only if no key holds a
      separator or starts like a failure line, nothing holds a newline, and no value ends in a
      carriage return. */
  lemma RoundTrip(pairs: seq<Pair>, rest: string)
    ensures Read(PrintOk(pairs) + rest) == (Pairs(pairs), rest) <==> AllClean(pairs)
  {
    ReadIsClean(PrintOk(pairs) + rest);
    if AllClean(pairs) {
      CleanReplyReturns(pairs, rest);
    }
  }

  // ---------- Replies in a row ----------

  /** A reply as the server sends it: a failure line may come after some pairs. */
  datatype Response = Response(pairs: seq<Pair>, failure: Option<string>)
  {
    predicate Sendable() {
      && AllClean(pairs)
      && (failure.Some? ==> NoNewline(failure.value) && NoTrailingReturn(failure.value))
    }

    function Text(): string {
      PrintPairs(pairs) + match failure case None => "OK\n" case Some(m) => ACK + m + "\n"
    }

    function Meaning(): Reply {
      match failure case None => Pairs(pairs) case Some(m) => Failure(m)
    }
  }

  function Send(rs: seq<Response>): string {
    if rs == [] then "" else rs[0].Text() + Send(rs[1..])
  }

  function Meanings(rs: seq<Response>): seq<Reply> {
    if rs == [] then [] else [rs[0].Meaning()] + Meanings(rs[1..])
  }

  function ReadMany(s: string, n: nat): (seq<Reply>, string)
    decreases n
  {
    if n == 0 then ([], s)
    else
      var (first, rest) := Read(s);
      var (others, end) := ReadMany(rest, n - 1);
      ([first] + others, end)
  }

  lemma ReadsAck(m: string, rest: string)
    requires NoNewline(m) && NoTrailingReturn(m)
    ensures Read(ACK + m + "\n" + rest) == (Failure(m), rest)
  {
    var line := ACK + m;
    assert line[|line| - 1] == if m == "" then ' ' else m[|m| - 1];
    ReadsLine(line, rest);
    assert line[|ACK|..] == m && line[..4] == ACK;
    assert ACK + m + "\n" + rest == line + "\n" + rest;
  }

  lemma ReadsOne(r: Response, rest: string)
    requires r.Sendable()
    ensures Read(r.Text() + rest) == (r.Meaning(), rest)
  {
    match r.failure
    case None =>
      CleanReplyReturns(r.pairs, rest);
      assert r.Text() == PrintOk(r.pairs);
    case Some(m) =>
      var tail := ACK + m + "\n" + rest;
      CleanPairsReturn(r.pairs, tail);
      ReadsAck(m, rest);
      assert r.Text() + rest == PrintPairs(r.pairs) + tail;
  }

  /** Any number of replies in a row, failures among them, are told apart by as many reads. */
  lemma {:induction false} RepliesInARow(rs: seq<Response>, rest: string)
    requires forall i :: 0 <= i < |rs| ==> rs[i].Sendable()
    ensures ReadMany(Send(rs) + rest, |rs|) == (Meanings(rs), rest)
    decreases |rs|
  {
    if rs == [] {
      assert Send(rs) + rest == rest;
    } else {
      var next := Send(rs[1..]) + rest;
      assert Send(rs) + rest == rs[0].Text() + next;
      ReadsOne(rs[0], next);
      RepliesInARow(rs[1..], rest);
    }
  }
}
