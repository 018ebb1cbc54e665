/** `Parse`: one left-to-right pass over the lines of a diff, threading a
    small state (the files so far, the two line counters, whether a hunk is
    open, the position counter, whether the current file has had a hunk). The
    current file is always the last one and, while a hunk is open, the current
    hunk is that file's last hunk. */
module Parser {
  import opened Results
  import opened Text
  import opened DiffModel
  import opened FileNames
  import opened LineClass
  import opened HunkHeader
  import opened RangeBuilder

  /** Why a parse stops. `NilFile` stands for the nil dereference panic of the
      source, which dereferences the current file when a header line comes
      before any `diff ` line; the others are the errors it returns. */
  datatype ParseError =
    | MalformedHunkHeader(line: string)
    | UnrecognizedLineMode(line: string)
    | MalformedBinaryMarker(line: string)
    | NilFile(line: string)

  /** What a line means outside hunk content, examined in the source's order. */
  datatype LineKind =
    | FileStart                          // `diff `
    | DeletedMarker                      // `+++ /dev/null`
    | NewMarker                          // `--- /dev/null`
    | Similarity(index: int)             // `similarity index N%`
    | OrigNameLine(name: string)         // `--- name`
    | NewNameLine(name: string)          // `+++ name`
    | RenameFrom(name: string)           // `rename from name`
    | RenameTo(name: string)             // `rename to name`
    | BinaryLine(names: seq<string>)     // `Binary files A and B differ`
    | HunkStart                          // `@@ `
    | Body                               // anything else

  const SimilarityPrefix: string := "similarity index "
  const RenameFromPrefix: string := "rename from "
  const RenameToPrefix: string := "rename to "
  const BinaryPrefix: string := "Binary files "

  /** The middle of a `Binary files` line cut at ` and `. */
  function BinaryNames(line: string): seq<string>
  {
    Split(TrimSuffix(TrimPrefix(line, BinaryPrefix), " differ"), " and ")
  }

  /** The similarity percentage; `Atoi`'s zero on a syntax error. */
  function SimilarityValue(line: string): int
  {
    Atoi(TrimSuffix(TrimPrefix(line, SimilarityPrefix), "%")).GetOr(0)
  }

  /** The header `switch` of the source, first match wins. */
  function Classify(line: string): LineKind
  {
    if HasPrefix(line, "diff ") then FileStart
    else if line == "+++ /dev/null" then DeletedMarker
    else if line == "--- /dev/null" then NewMarker
    else if HasPrefix(line, SimilarityPrefix) then Similarity(SimilarityValue(line))
    else if HasPrefix(line, "--- ") then OrigNameLine(ParseFileName(TrimPrefix(line, "--- ")))
    else if HasPrefix(line, "+++ ") then NewNameLine(ParseFileName(TrimPrefix(line, "+++ ")))
    else if HasPrefix(line, RenameFromPrefix) then RenameFrom(ParseFileName(TrimPrefix(line, RenameFromPrefix)))
    else if HasPrefix(line, RenameToPrefix) then RenameTo(ParseFileName(TrimPrefix(line, RenameToPrefix)))
    else if HasPrefix(line, BinaryPrefix) then BinaryLine(BinaryNames(line))
    else if HasPrefix(line, "@@ ") then HunkStart
    else Body
  }

  /** A prefix fixes the characters it covers. */
  lemma PrefixChar(line: string, p: string, i: nat)
    requires HasPrefix(line, p) && i < |p|
    ensures line[i] == p[i]
  {
    assert line[..|p|][i] == line[i];
  }

  /** The order of the `switch` matters only for the `/dev/null` lines, which
      win over the name lines they look like; every other prefix excludes the
      rest, so each kind is recognised by its own prefix alone. */
  lemma ClassifyByPrefix(line: string)
    ensures Classify(line) == FileStart <==> HasPrefix(line, "diff ")
    ensures Classify(line) == DeletedMarker <==> line == "+++ /dev/null"
    ensures Classify(line) == NewMarker <==> line == "--- /dev/null"
    ensures Classify(line).Similarity? <==> HasPrefix(line, SimilarityPrefix)
    ensures Classify(line).OrigNameLine? <==> HasPrefix(line, "--- ") && line != "--- /dev/null"
    ensures Classify(line).NewNameLine? <==> HasPrefix(line, "+++ ") && line != "+++ /dev/null"
    ensures Classify(line).RenameFrom? <==> HasPrefix(line, RenameFromPrefix)
    ensures Classify(line).RenameTo? <==> HasPrefix(line, RenameToPrefix)
    ensures Classify(line).BinaryLine? <==> HasPrefix(line, BinaryPrefix)
    ensures Classify(line) == HunkStart <==> HasPrefix(line, "@@ ")
  {
    if HasPrefix(line, "diff ") { PrefixChar(line, "diff ", 0); }
    if HasPrefix(line, SimilarityPrefix) { PrefixChar(line, SimilarityPrefix, 0); }
    if HasPrefix(line, "--- ") { PrefixChar(line, "--- ", 0); }
    if HasPrefix(line, "+++ ") { PrefixChar(line, "+++ ", 0); }
    if HasPrefix(line, RenameFromPrefix) { PrefixChar(line, RenameFromPrefix, 0); PrefixChar(line, RenameFromPrefix, 7); }
    if HasPrefix(line, RenameToPrefix) { PrefixChar(line, RenameToPrefix, 0); PrefixChar(line, RenameToPrefix, 7); }
    if HasPrefix(line, BinaryPrefix) { PrefixChar(line, BinaryPrefix, 0); }
    if HasPrefix(line, "@@ ") { PrefixChar(line, "@@ ", 0); }
    if line == "+++ /dev/null" { assert line[..4] == "+++ "; }
    if line == "--- /dev/null" { assert line[..4] == "--- "; }
  }

  /** `^index .+$` */
  predicate IsIndexLine(line: string) {
    |line| > 6 && HasPrefix(line, "index ") && '\n' !in line
  }

  predicate IsPlusOrMinus(c: char) {
    c == '-' || c == '+'
  }

  /** `^(-|\+){3} .+$`: three signs, mixed or not, a space and some text. */
  predicate IsMarkerLine(line: string) {
    |line| > 4 && IsPlusOrMinus(line[0]) && IsPlusOrMinus(line[1]) && IsPlusOrMinus(line[2])
    && line[3] == ' ' && '\n' !in line
  }

  /** The `DiffHeader` of the file opened at `idx`: the `diff ` line, then the
      next line if it is an index line, then the two lines after that if both
      are marker lines. Nothing is looked at unless three lines follow. */
  function DiffHeaderAt(lines: seq<string>, idx: nat): (header: string)
    requires idx < |lines|
    ensures HasPrefix(header, lines[idx])
  {
    var l := lines[idx];
    if |lines| > idx + 3 then
      var withIndex := if IsIndexLine(lines[idx + 1]) then l + ("\n" + lines[idx + 1]) else l;
      var full :=
        if IsMarkerLine(lines[idx + 2]) && IsMarkerLine(lines[idx + 3])
        then withIndex + ("\n" + lines[idx + 2] + "\n" + lines[idx + 3])
        else withIndex;
      assert full[..|l|] == l;
      full
    else l
  }

  /** The lines a file's header is made of: the `diff ` line; then, when
      three lines follow, the next line if it is an index line and the two
      after that if both are marker lines. */
  function HeaderLines(lines: seq<string>, idx: nat): (r: seq<string>)
    requires idx < |lines|
    ensures 1 <= |r| <= 4 && r[0] == lines[idx]
  {
    if |lines| > idx + 3 then
      [lines[idx]]
      + (if IsIndexLine(lines[idx + 1]) then [lines[idx + 1]] else [])
      + (if IsMarkerLine(lines[idx + 2]) && IsMarkerLine(lines[idx + 3])
         then [lines[idx + 2], lines[idx + 3]] else [])
    else [lines[idx]]
  }

  lemma JoinTwo(a: string, b: string)
    ensures Join([a, b], "\n") == a + ("\n" + b)
  {
    JoinCons(a, [b], "\n");
    assert [a, b] == [a] + [b];
  }

  lemma JoinThree(a: string, c: string, d: string)
    ensures Join([a, c, d], "\n") == a + ("\n" + c + "\n" + d)
  {
    JoinTwo(c, d);
    JoinCons(a, [c, d], "\n");
    assert [a, c, d] == [a] + [c, d];
  }

  lemma JoinFour(a: string, b: string, c: string, d: string)
    ensures Join([a, b, c, d], "\n") == a + ("\n" + b) + ("\n" + c + "\n" + d)
  {
    JoinThree(b, c, d);
    JoinCons(a, [b, c, d], "\n");
    assert [a, b, c, d] == [a] + [b, c, d];
  }

  /** A file's header is its header lines joined by newlines. */
  lemma DiffHeaderJoin(lines: seq<string>, idx: nat)
    requires idx < |lines|
    ensures Join(HeaderLines(lines, idx), "\n") == DiffHeaderAt(lines, idx)
  {
    if |lines| > idx + 3 {
      var l, b, c, d := lines[idx], lines[idx + 1], lines[idx + 2], lines[idx + 3];
      var ix, mk := IsIndexLine(b), IsMarkerLine(c) && IsMarkerLine(d);
      if ix && mk {
        assert HeaderLines(lines, idx) == [l, b, c, d];
        JoinFour(l, b, c, d);
      } else if ix {
        assert HeaderLines(lines, idx) == [l, b];
        JoinTwo(l, b);
      } else if mk {
        assert HeaderLines(lines, idx) == [l, c, d];
        JoinThree(l, c, d);
      } else {
        assert HeaderLines(lines, idx) == [l];
      }
    }
  }

  /** Splitting a file's header at newlines gives its header lines back,
      as long as the `diff ` line itself holds no newline (no line
      `strings.Split` returns does). */
  lemma DiffHeaderLines(lines: seq<string>, idx: nat)
    requires idx < |lines|
    ensures '\n' !in lines[idx] ==> Split(DiffHeaderAt(lines, idx), "\n") == HeaderLines(lines, idx)
  {
    var hl := HeaderLines(lines, idx);
    if '\n' !in lines[idx] {
      assert forall k | 0 <= k < |hl| :: '\n' !in hl[k];
      DiffHeaderJoin(lines, idx);
      SplitJoin(hl, '\n');
    }
  }

  datatype State = State(
    files: seq<DiffFile>,
    addedCount: int,
    removedCount: int,
    inHunk: bool,
    position: int,
    firstHunkInFile: bool)

  const Initial: State := State([], 0, 0, false, 0, false)

  /** While a hunk is open there is a current file with a current hunk: the
      source never dereferences a nil hunk. */
  predicate Coherent(st: State) {
    st.inHunk ==> |st.files| > 0 && |st.files[|st.files| - 1].hunks| > 0
  }

  function Last<T>(s: seq<T>): T
    requires |s| > 0
  {
    s[|s| - 1]
  }

  function ReplaceLast<T>(s: seq<T>, x: T): (r: seq<T>)
    requires |s| > 0
    ensures |r| == |s| && r[|s| - 1] == x
    ensures forall k | 0 <= k < |s| - 1 :: r[k] == s[k]
  {
    s[..|s| - 1] + [x]
  }

  /** Replacing the last element of `s + [a]`. */
  lemma ReplaceAppended<T>(s: seq<T>, a: T, x: T)
    ensures ReplaceLast(s + [a], x) == s + [x]
  {
    assert (s + [a])[..|s|] == s;
  }

  /** The state with the current file replaced by `f`. */
  function WithFile(st: State, f: DiffFile): State
    requires |st.files| > 0
  {
    st.(files := ReplaceLast(st.files, f))
  }

  /** A content line of mode `m` joins the current hunk at position `pos`. */
  function AddContent(st: State, m: LineMode, content: string, pos: int): State
    requires Coherent(st) && st.inHunk
  {
    var f := Last(st.files);
    var h := AddLine(Last(f.hunks), m, content, pos, st.addedCount, st.removedCount);
    State(
      ReplaceLast(st.files, f.(hunks := ReplaceLast(f.hunks, h))),
      NextAdded(m, st.addedCount),
      NextRemoved(m, st.removedCount),
      st.inHunk,
      pos,
      st.firstHunkInFile)
  }

  /** The line is a header line that needs a current file. */
  predicate NeedsFile(line: string) {
    Classify(line) != FileStart && Classify(line) != Body
  }

  /** A line the source reads as hunk content (given an open hunk). */
  predicate IsContent(line: string) {
    Classify(line) == Body && IsSourceLine(line)
  }

  /** One iteration of the source's loop over `lines`, at index `idx`. */
  function Step(lines: seq<string>, idx: nat, st: State): (r: Result<State, ParseError>)
    requires idx < |lines| && Coherent(st)
    ensures r.Ok? ==> Coherent(r.value)
  {
    var l := lines[idx];
    var pos := st.position + 1;
    var moved := st.(position := pos);
    match Classify(l)
    case FileStart =>
      var f := DiffFile(DiffHeaderAt(lines, idx), Modified, "", "", [], 0);
      Ok(State(st.files + [f], st.addedCount, st.removedCount, false, pos, true))
    case Body =>
      if st.inHunk && IsSourceLine(l) then
        match LineModeOf(l)
        case None => Err(UnrecognizedLineMode(l))
        case Some(m) => Ok(AddContent(st, m, l[1..], pos))
      else Ok(moved)
    case _ =>
      if |st.files| == 0 then Err(NilFile(l))
      else HeaderStep(l, moved, Classify(l))
  }

  /** A header line other than `diff ` updates the current file. */
  function HeaderStep(l: string, st: State, kind: LineKind): (r: Result<State, ParseError>)
    requires |st.files| > 0 && Coherent(st)
    requires kind != FileStart && kind != Body
    ensures r.Ok? ==> Coherent(r.value)
  {
    var f := Last(st.files);
    match kind
    case DeletedMarker => Ok(WithFile(st, f.(mode := Deleted)))
    case NewMarker => Ok(WithFile(st, f.(mode := New)))
    case Similarity(n) => Ok(WithFile(st, f.(mode := Renamed, similarityIndex := n)))
    case OrigNameLine(name) => Ok(WithFile(st, f.(origName := name)))
    case NewNameLine(name) => Ok(WithFile(st, f.(newName := name)))
    case RenameFrom(name) => Ok(WithFile(st, f.(origName := name)))
    case RenameTo(name) => Ok(WithFile(st, f.(newName := name)))
    case BinaryLine(names) =>
      if |names| != 2 then Err(MalformedBinaryMarker(l))
      else
        Ok(WithFile(st, f.(mode := Modified, origName := ParseFileName(names[0]),
                            newName := ParseFileName(names[1]))))
    case HunkStart =>
      match MatchHunkHeader(l)
      case None => Err(MalformedHunkHeader(l))
      case Some(hh) =>
        var h := EmptyHunk(hh.context, hh.origStart, hh.origLength, hh.newStart, hh.newLength);
        Ok(State(
          ReplaceLast(st.files, f.(hunks := f.hunks + [h])),
          hh.newStart,
          hh.origStart,
          true,
          if st.firstHunkInFile then 0 else st.position,
          false))
  }

  /** The state after the first `n` lines; the first error stops the fold. */
  function StateAfter(lines: seq<string>, n: nat): (r: Result<State, ParseError>)
    requires n <= |lines|
    ensures r.Ok? ==> Coherent(r.value)
  {
    if n == 0 then Ok(Initial)
    else
      match StateAfter(lines, n - 1)
      case Err(e) => Err(e)
      case Ok(st) => Step(lines, n - 1, st)
  }

  /** The physical lines of a diff: the text cut at every newline. */
  function Lines(text: string): seq<string>
  {
    Split(text, "\n")
  }

  /** `Parse`: the files of the diff, or the first error. */
  function Parse(text: string): Result<Diff, ParseError>
  {
    var lines := Lines(text);
    match StateAfter(lines, |lines|)
    case Ok(st) => Ok(Diff(st.files))
    case Err(e) => Err(e)
  }
}
