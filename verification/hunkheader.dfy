/** The `@@ -A[,B] +C[,D] @@[ context]` line that opens a hunk.

    The source matches it with the unanchored regular expression
    `@@ \-(\d+),?(\d+)? \+(\d+),?(\d+)? @@ ?(.+)?` and takes the leftmost
    match. At a fixed start that expression never needs to backtrack: each
    digit group is followed by a non-digit literal, so a greedy digit run is
    the only run that can succeed. `MatchAt` is therefore a greedy scan, and
    `MatchHunkHeader` tries it at every start from left to right. */
module HunkHeader {
  import opened Results
  import opened Text

  /** The five capture groups, with an omitted count already defaulted to
      its start (the source's `b := a` and `d := c`). */
  datatype HunkFields = HunkFields(
    origStart: nat,
    origLength: nat,
    newStart: nat,
    newLength: nat,
    context: string)

  /** `,?(\d+)?` in front of a non-digit: the count if there is one, and the
      rest of the text. */
  function OptionalCount(s: string): (r: (Option<nat>, string))
    ensures |r.1| <= |s|
  {
    if HasPrefix(s, ",") then
      var t := s[1..];
      var n := DigitRun(t);
      (if n == 0 then None else Some(DigitsValue(t[..n])), t[n..])
    else (None, s)
  }

  /** `(.+)?` without newlines: the text up to the first newline. */
  function UpToNewline(s: string): (r: string)
    ensures '\n' !in r
    ensures '\n' !in s ==> r == s
  {
    if |s| == 0 || s[0] == '\n' then [] else [s[0]] + UpToNewline(s[1..])
  }

  /** The expression matched at the very start of `s`. */
  function MatchAt(s: string): Option<HunkFields>
  {
    if !HasPrefix(s, "@@ -") then None else MatchOrig(s[4..])
  }

  /** `(\d+),?(\d+)? \+` and what follows. */
  function MatchOrig(s: string): Option<HunkFields>
  {
    var n := DigitRun(s);
    if n == 0 then None
    else
      var (b, rest) := OptionalCount(s[n..]);
      if !HasPrefix(rest, " +") then None
      else MatchNew(DigitsValue(s[..n]), b, rest[2..])
  }

  /** `(\d+),?(\d+)? @@` and what follows. */
  function MatchNew(a: nat, b: Option<nat>, s: string): Option<HunkFields>
  {
    var n := DigitRun(s);
    if n == 0 then None
    else
      var (d, rest) := OptionalCount(s[n..]);
      MatchContext(a, b, DigitsValue(s[..n]), d, rest)
  }

  /** ` @@ ?(.+)?`: always matches once ` @@` is there. */
  function MatchContext(a: nat, b: Option<nat>, c: nat, d: Option<nat>, s: string): Option<HunkFields>
  {
    if !HasPrefix(s, " @@") then None
    else
      var t := s[3..];
      var ctx := UpToNewline(if HasPrefix(t, " ") then t[1..] else t);
      Some(HunkFields(a, b.GetOr(a), c, d.GetOr(c), ctx))
  }

  /** The leftmost match starting at or after `from`. */
  function FindFrom(line: string, from: nat): (r: Option<HunkFields>)
    ensures r.Some? ==> exists i | from <= i <= |line| ::
      MatchAt(line[i..]) == r && forall j | from <= j < i :: MatchAt(line[j..]).None?
    ensures r.None? ==> forall i | from <= i <= |line| :: MatchAt(line[i..]).None?
    decreases |line| - from
  {
    if from > |line| then None
    else if MatchAt(line[from..]).Some? then MatchAt(line[from..])
    else FindFrom(line, from + 1)
  }

  /** `hunkHeaderReg.FindStringSubmatch` followed by the `Atoi` calls and
      the defaulting of omitted counts. */
  function MatchHunkHeader(line: string): Option<HunkFields>
  {
    FindFrom(line, 0)
  }

  // ---- writing a header, the inverse of matching one ----

  function CountText(n: Option<nat>): string {
    match n
    case Some(v) => "," + NatToString(v)
    case None => ""
  }

  /** A hunk header as diff tools write it; a missing count is left out. */
  function FormatHunkHeader(a: nat, b: Option<nat>, c: nat, d: Option<nat>, context: string): string
  {
    "@@ -" + (NatToString(a) + (CountText(b) + (" +" + (NatToString(c) + (CountText(d) + (" @@"
    + (if |context| == 0 then "" else " " + context)))))))
  }

  lemma OptionalCountOf(n: Option<nat>, rest: string)
    requires |rest| > 0 && rest[0] == ' '
    ensures OptionalCount(CountText(n) + rest) == (n, rest)
  {
    var s := CountText(n) + rest;
    if n.Some? {
      var ds := NatToString(n.value);
      assert s == "," + (ds + rest);
      assert s[1..] == ds + rest;
      DigitRunOf(ds, rest);
      assert (ds + rest)[..|ds|] == ds;
      assert (ds + rest)[|ds|..] == rest;
    } else {
      assert s == rest;
    }
  }

  lemma MatchContextOf(a: nat, b: Option<nat>, c: nat, d: Option<nat>, context: string)
    requires '\n' !in context
    ensures MatchContext(a, b, c, d, " @@" + (if |context| == 0 then "" else " " + context))
      == Some(HunkFields(a, b.GetOr(a), c, d.GetOr(c), context))
  {
    var tail := (if |context| == 0 then "" else " " + context);
    var s := " @@" + tail;
    assert s[..3] == " @@";
    assert s[3..] == tail;
    if |context| > 0 {
      assert tail[..1] == " ";
      assert tail[1..] == context;
    }
  }

  lemma MatchNewOf(a: nat, b: Option<nat>, dc: string, d: Option<nat>, rest: string)
    requires |dc| > 0 && AllDigits(dc)
    requires |rest| > 0 && rest[0] == ' '
    ensures MatchNew(a, b, dc + (CountText(d) + rest)) == MatchContext(a, b, DigitsValue(dc), d, rest)
  {
    var t := CountText(d) + rest;
    var s := dc + t;
    DigitRunOf(dc, t);
    assert s[..|dc|] == dc;
    assert s[|dc|..] == t;
    OptionalCountOf(d, rest);
  }

  lemma MatchOrigOf(da: string, b: Option<nat>, rest: string)
    requires |da| > 0 && AllDigits(da)
    ensures MatchOrig(da + (CountText(b) + (" +" + rest))) == MatchNew(DigitsValue(da), b, rest)
  {
    var r2 := " +" + rest;
    var t := CountText(b) + r2;
    var s := da + t;
    DigitRunOf(da, t);
    assert s[..|da|] == da;
    assert s[|da|..] == t;
    OptionalCountOf(b, r2);
    assert r2[..2] == " +";
    assert r2[2..] == rest;
  }

  /** Matching a written header gives back its fields, an omitted count
      reading as the range's start. */
  lemma MatchFormatted(a: nat, b: Option<nat>, c: nat, d: Option<nat>, context: string)
    requires '\n' !in context
    ensures MatchHunkHeader(FormatHunkHeader(a, b, c, d, context))
      == Some(HunkFields(a, b.GetOr(a), c, d.GetOr(c), context))
  {
    var da, dc := NatToString(a), NatToString(c);
    var tail := " @@" + (if |context| == 0 then "" else " " + context);
    var newPart := dc + (CountText(d) + tail);
    var s1 := da + (CountText(b) + (" +" + newPart));
    var s := FormatHunkHeader(a, b, c, d, context);
    assert s == "@@ -" + s1;
    assert s[..4] == "@@ -" && s[4..] == s1;
    MatchContextOf(a, b, c, d, context);
    MatchNewOf(a, b, dc, d, tail);
    MatchOrigOf(da, b, newPart);
    assert s[0..] == s;
  }

  /** A header whose counts are both omitted reports lengths equal to the
      starts, not 1. */
  lemma OmittedCountsDefaultToStart(a: nat, c: nat)
    ensures MatchHunkHeader(FormatHunkHeader(a, None, c, None, "")) == Some(HunkFields(a, a, c, c, ""))
  {
    MatchFormatted(a, None, c, None, "");
  }
}
