/** Vocabulary shared by every module: bytes, options and powers of two. */
module Base {

  type byte = x: int | 0 <= x < 256

  datatype Option<+T> = None | Some(value: T)

  const NEWLINE: byte := 10
  const CARRIAGE_RETURN: byte := 13

  function Min(a: int, b: int): int {
    if a <= b then a else b
  }

  function Pow2(n: nat): (p: nat)
    ensures p >= 1
  {
    if n == 0 then 1 else 2 * Pow2(n - 1)
  }

  /** The position of the first newline, or |w|. */
  function FindNewline(w: seq<byte>): (p: nat)
    ensures p <= |w|
    ensures forall i :: 0 <= i < p ==> w[i] != NEWLINE
    ensures p < |w| ==> w[p] == NEWLINE
  {
    if w == [] || w[0] == NEWLINE then 0 else 1 + FindNewline(w[1..])
  }

  lemma FindNewlineUnique(w: seq<byte>, p: nat)
    requires p < |w| && w[p] == NEWLINE
    requires forall i :: 0 <= i < p ==> w[i] != NEWLINE
    ensures FindNewline(w) == p
  {
  }

  predicate MatchesAt(s: string, part: string, i: nat) {
    i + |part| <= |s| && s[i..i + |part|] == part
  }

  predicate Contains(s: string, part: string) {
    exists i: nat :: i <= |s| && MatchesAt(s, part, i)
  }

  ghost predicate NoRepeats<T>(s: seq<T>) {
    forall i, j :: 0 <= i < j < |s| ==> s[i] != s[j]
  }

  lemma Reassociate<T>(a: seq<T>, b: seq<T>, c: seq<T>)
    ensures a + b + c == a + (b + c)
  {
  }

  /** `s` concatenated in order. */
  function Flatten<T>(s: seq<seq<T>>): seq<T> {
    if s == [] then [] else s[0] + Flatten(s[1..])
  }

  lemma {:induction false} FlattenAppend<T>(s: seq<seq<T>>, t: seq<T>)
    ensures Flatten(s + [t]) == Flatten(s) + t
  {
    if s == [] {
      assert s + [t] == [t];
      assert Flatten([t]) == t + Flatten([]);
    } else {
      assert (s + [t])[0] == s[0] && (s + [t])[1..] == s[1..] + [t];
      FlattenAppend(s[1..], t);
    }
  }
}
