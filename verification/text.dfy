/** The string helpers the parser relies on: Go's `strings.HasPrefix`,
    `TrimPrefix`, `TrimSuffix`, `Split` and `strconv.Atoi`, written out on
    `seq<char>` (each char stands for one byte of a Go string). */
module Text {
  import opened Results

  predicate HasPrefix(s: string, p: string) {
    |p| <= |s| && s[..|p|] == p
  }

  predicate HasSuffix(s: string, p: string) {
    |p| <= |s| && s[|s| - |p|..] == p
  }

  /** `strings.TrimPrefix`: drops `p` once if `s` starts with it. */
  function TrimPrefix(s: string, p: string): (r: string)
    ensures HasPrefix(s, p) ==> p + r == s
    ensures !HasPrefix(s, p) ==> r == s
  {
    if HasPrefix(s, p) then s[|p|..] else s
  }

  /** `strings.TrimSuffix`: drops `p` once if `s` ends with it. */
  function TrimSuffix(s: string, p: string): (r: string)
    ensures HasSuffix(s, p) ==> r + p == s
    ensures !HasSuffix(s, p) ==> r == s
  {
    if HasSuffix(s, p) then s[..|s| - |p|] else s
  }

  /** `sep` occurs in `s` starting at index `i`. */
  predicate OccursAt(s: string, sep: string, i: nat) {
    i + |sep| <= |s| && s[i..i + |sep|] == sep
  }

  /** The first index at or after `from` where `sep` occurs in `s`. */
  function IndexFrom(s: string, sep: string, from: nat): (r: Option<nat>)
    requires |sep| > 0
    ensures r.Some? ==> from <= r.value && OccursAt(s, sep, r.value)
    ensures r.Some? ==> forall i: nat | from <= i < r.value :: !OccursAt(s, sep, i)
    ensures r.None? ==> forall i: nat | from <= i :: !OccursAt(s, sep, i)
    decreases |s| - from
  {
    if from + |sep| > |s| then None
    else if s[from..from + |sep|] == sep then Some(from)
    else IndexFrom(s, sep, from + 1)
  }

  /** `strings.Index`: the first occurrence of `sep` in `s`. */
  function IndexOf(s: string, sep: string): (r: Option<nat>)
    requires |sep| > 0
    ensures r.Some? ==> OccursAt(s, sep, r.value)
    ensures r.Some? ==> forall i: nat | i < r.value :: !OccursAt(s, sep, i)
    ensures r.None? ==> forall i: nat :: !OccursAt(s, sep, i)
  {
    IndexFrom(s, sep, 0)
  }

  /** `strings.Split` with a non-empty separator: cuts `s` at every
      occurrence of `sep`, scanning left to right without overlaps. */
  function Split(s: string, sep: string): (parts: seq<string>)
    requires |sep| > 0
    ensures |parts| >= 1
    ensures forall k | 0 <= k < |parts| :: IndexOf(parts[k], sep).None?
    decreases |s|
  {
    match IndexOf(s, sep)
    case None => [s]
    case Some(i) =>
      var head := s[..i];
      assert IndexOf(head, sep).None? by {
        forall j: nat ensures !OccursAt(head, sep, j) {
          if j + |sep| <= |head| {
            assert |head| == i <= |s|;
            assert s[j..j + |sep|] == head[j..j + |sep|] by {
              assert forall t | j <= t < j + |sep| :: s[t] == head[t];
            }
            assert j < i && !OccursAt(s, sep, j);
          }
        }
      }
      [head] + Split(s[i + |sep|..], sep)
  }

  /** `strings.Join`: the inverse of `Split`. */
  function Join(parts: seq<string>, sep: string): string
  {
    if |parts| == 0 then []
    else if |parts| == 1 then parts[0]
    else parts[0] + sep + Join(parts[1..], sep)
  }

  /** Splitting and joining again gives back the original text. */
  lemma {:induction false} JoinSplit(s: string, sep: string)
    requires |sep| > 0
    ensures Join(Split(s, sep), sep) == s
    decreases |s|
  {
    match IndexOf(s, sep)
    case None =>
    case Some(i) =>
      var rest := s[i + |sep|..];
      JoinSplit(rest, sep);
      SplitAt(s, sep, i);
      JoinCons(s[..i], Split(rest, sep), sep);
      assert s == s[..i] + sep + rest;
  }

  lemma SplitAt(s: string, sep: string, i: nat)
    requires |sep| > 0 && IndexOf(s, sep) == Some(i)
    ensures i + |sep| <= |s|
    ensures Split(s, sep) == [s[..i]] + Split(s[i + |sep|..], sep)
  {
  }

  lemma JoinCons(head: string, tail: seq<string>, sep: string)
    requires |tail| >= 1
    ensures Join([head] + tail, sep) == head + sep + Join(tail, sep)
  {
    assert ([head] + tail)[1..] == tail;
  }

  /** Joining pieces that do not contain the one-character separator and
      splitting again gives back the pieces: the separator positions in the
      joined text are exactly the joints. */
  lemma {:induction false} SplitJoin(parts: seq<string>, c: char)
    requires |parts| >= 1
    requires forall k | 0 <= k < |parts| :: c !in parts[k]
    ensures Split(Join(parts, [c]), [c]) == parts
    decreases |parts|
  {
    if |parts| == 1 {
      NoSeparator(parts[0], c);
    } else {
      var rest := Join(parts[1..], [c]);
      JoinCons(parts[0], parts[1..], [c]);
      assert [parts[0]] + parts[1..] == parts;
      var s := parts[0] + [c] + rest;
      FirstSeparator(parts[0], rest, c);
      SplitAt(s, [c], |parts[0]|);
      assert s[..|parts[0]|] == parts[0] && s[|parts[0]| + 1..] == rest;
      SplitJoin(parts[1..], c);
    }
  }

  /** A text without the separator character does not contain it. */
  lemma NoSeparator(s: string, c: char)
    requires c !in s
    ensures IndexOf(s, [c]).None?
  {
    forall i: nat ensures !OccursAt(s, [c], i) {
      if i + 1 <= |s| {
        assert s[i..i + 1] == [s[i]];
      }
    }
  }

  /** The separator right after a piece without it is its first occurrence. */
  lemma FirstSeparator(head: string, rest: string, c: char)
    requires c !in head
    ensures IndexOf(head + [c] + rest, [c]) == Some(|head|)
  {
    var s := head + [c] + rest;
    var n := |head|;
    assert s[n..n + 1] == [c];
    assert OccursAt(s, [c], n);
    forall i: nat | i < n ensures !OccursAt(s, [c], i) {
      assert s[i] == head[i];
      assert s[i..i + 1] == [s[i]];
    }
  }

  predicate IsDigit(c: char) {
    '0' <= c <= '9'
  }

  predicate AllDigits(s: string) {
    forall i | 0 <= i < |s| :: IsDigit(s[i])
  }

  /** The value of a decimal digit string (empty means 0). */
  function DigitsValue(s: string): nat
    requires AllDigits(s)
  {
    if |s| == 0 then 0
    else DigitsValue(s[..|s| - 1]) * 10 + (s[|s| - 1] as int - '0' as int)
  }

  /** The canonical decimal rendering of `n`, the inverse of `DigitsValue`. */
  function NatToString(n: nat): (r: string)
    ensures |r| >= 1 && AllDigits(r)
    ensures DigitsValue(r) == n
  {
    var d := [(n % 10 + '0' as int) as char];
    if n < 10 then d
    else
      var hi := NatToString(n / 10);
      assert (hi + d)[..|hi + d| - 1] == hi;
      hi + d
  }

  /** The length of the longest all-digit prefix of `s` (a greedy `\d*`). */
  function DigitRun(s: string): (n: nat)
    ensures n <= |s| && AllDigits(s[..n])
    ensures n < |s| ==> !IsDigit(s[n])
  {
    if |s| == 0 || !IsDigit(s[0]) then 0
    else
      var m := DigitRun(s[1..]);
      assert s[..m + 1] == [s[0]] + s[1..][..m];
      m + 1
  }

  /** A digit string followed by a non-digit (or nothing) is cut exactly at
      the joint by a greedy digit run. */
  lemma {:induction false} DigitRunOf(ds: string, rest: string)
    requires AllDigits(ds)
    requires |rest| == 0 || !IsDigit(rest[0])
    ensures DigitRun(ds + rest) == |ds|
    decreases |ds|
  {
    if |ds| > 0 {
      DigitRunOf(ds[1..], rest);
      assert (ds + rest)[1..] == ds[1..] + rest;
    } else {
      assert ds + rest == rest;
    }
  }

  /** `strconv.Atoi` without the range check: an optional sign followed by at
      least one decimal digit; anything else is a syntax error. */
  function Atoi(s: string): (r: Option<int>)
  {
    if |s| > 0 && (s[0] == '+' || s[0] == '-') then
      var ds := s[1..];
      if |ds| > 0 && AllDigits(ds) then
        var v: int := if s[0] == '-' then -(DigitsValue(ds) as int) else DigitsValue(ds);
        Some(v)
      else None
    else if |s| > 0 && AllDigits(s) then Some(DigitsValue(s))
    else None
  }

  /** `Atoi` reads back what `NatToString` writes, with either sign. */
  lemma AtoiNatToString(n: nat)
    ensures Atoi(NatToString(n)) == Some(n)
    ensures Atoi("-" + NatToString(n)) == Option<int>.Some(-(n as int))
    ensures Atoi("+" + NatToString(n)) == Some(n)
  {
    var s := NatToString(n);
    assert ("-" + s)[1..] == s;
    assert ("+" + s)[1..] == s;
  }

  /** `Atoi` succeeds exactly on an optionally signed non-empty digit string. */
  lemma AtoiSomeIff(s: string)
    ensures Atoi(s).Some? <==>
      ((|s| > 1 && (s[0] == '+' || s[0] == '-') && AllDigits(s[1..]))
       || (|s| > 0 && AllDigits(s)))
  {
  }
}
