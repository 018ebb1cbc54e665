/** A file section of a diff worked through line by line, wherever it
    sits in the text: the `diff`, `---` and `+++` header lines, the hunk
    header, and each content line, each stated as what the fold over the
    lines records after it. */
module Scenarios {
  import opened Results
  import opened Text
  import opened DiffModel
  import opened FileNames
  import opened LineClass
  import opened HunkHeader
  import opened RangeBuilder
  import opened Parser
  import opened StepFacts

  /** A line whose first character differs from the prefix's. */
  lemma FirstCharDiffers(line: string, p: string)
    requires |line| > 0 && |p| > 0 && line[0] != p[0]
    ensures !HasPrefix(line, p)
  {
  }

  /** One more line folds in by one step. */
  lemma StateAfterNext(lines: seq<string>, k: nat, st: State)
    requires k < |lines| && StateAfter(lines, k) == Ok(st)
    ensures StateAfter(lines, k + 1) == Step(lines, k, st)
  {
  }

  /** `--- a/n` names the orig side `n`. */
  lemma OrigNameStep(lines: seq<string>, idx: nat, st: State, n: string)
    requires idx < |lines| && Coherent(st) && |st.files| > 0
    requires lines[idx] == "--- " + ("a/" + n)
    ensures Step(lines, idx, st) == Ok(st.(
      files := ReplaceLast(st.files, Last(st.files).(origName := n)),
      position := st.position + 1))
  {
    assert HasPrefix(lines[idx], "--- ") && lines[idx][4..] == "a/" + n;
    assert lines[idx] != "--- /dev/null" by { FirstCharDiffers(lines[idx][4..], "/dev/null"); }
    StepOrigName(lines, idx, st, "--- ");
    ParseFileNamePrefixed(n);
  }

  /** `+++ b/n` names the new side `n`. */
  lemma NewNameStep(lines: seq<string>, idx: nat, st: State, n: string)
    requires idx < |lines| && Coherent(st) && |st.files| > 0
    requires lines[idx] == "+++ " + ("b/" + n)
    ensures Step(lines, idx, st) == Ok(st.(
      files := ReplaceLast(st.files, Last(st.files).(newName := n)),
      position := st.position + 1))
  {
    assert HasPrefix(lines[idx], "+++ ") && lines[idx][4..] == "b/" + n;
    assert lines[idx] != "+++ /dev/null" by { FirstCharDiffers(lines[idx][4..], "/dev/null"); }
    StepNewName(lines, idx, st, "+++ ");
    ParseFileNamePrefixed(n);
  }

  /** A `diff ` line followed by `--- a/n` and `+++ b/n` and a hunk header
      appends one Modified file named `n` on both sides, its header the
      `diff ` line alone. */
  lemma FileHeaderLines(lines: seq<string>, j: nat, st: State, n: string)
    requires j + 4 <= |lines| && StateAfter(lines, j) == Ok(st)
    requires HasPrefix(lines[j], "diff ") && HasPrefix(lines[j + 3], "@@ ")
    requires lines[j + 1] == "--- " + ("a/" + n) && lines[j + 2] == "+++ " + ("b/" + n)
    ensures StateAfter(lines, j + 3) == Ok(State(
      st.files + [DiffFile(lines[j], Modified, n, n, [], 0)],
      st.addedCount, st.removedCount, false, st.position + 3, true))
  {
    var f0 := DiffFile(lines[j], Modified, "", "", [], 0);
    var s1 := State(st.files + [f0], st.addedCount, st.removedCount, false, st.position + 1, true);
    assert StateAfter(lines, j + 1) == Ok(s1) by {
      FirstCharDiffers(lines[j + 1], "index ");
      PrefixChar(lines[j + 3], "@@ ", 0);
      assert DiffHeaderAt(lines, j) == lines[j];
      StateAfterNext(lines, j, st);
      StepDiffLine(lines, j, st);
    }
    var s2 := s1.(files := st.files + [f0.(origName := n)], position := st.position + 2);
    assert StateAfter(lines, j + 2) == Ok(s2) by {
      StateAfterNext(lines, j + 1, s1);
      OrigNameStep(lines, j + 1, s1, n);
      ReplaceAppended(st.files, f0, f0.(origName := n));
    }
    StateAfterNext(lines, j + 2, s2);
    NewNameStep(lines, j + 2, s2, n);
    ReplaceAppended(st.files, f0.(origName := n), f0.(origName := n, newName := n));
  }

  /** An index line falls to no case of the `switch`. */
  lemma IndexLineIsBody(line: string)
    requires HasPrefix(line, "index ")
    ensures Classify(line) == Body
  {
    PrefixChar(line, "index ", 0);
    FirstCharDiffers(line, "diff ");
    FirstCharDiffers(line, SimilarityPrefix);
    FirstCharDiffers(line, "--- ");
    FirstCharDiffers(line, "+++ ");
    FirstCharDiffers(line, RenameFromPrefix);
    FirstCharDiffers(line, RenameToPrefix);
    FirstCharDiffers(line, BinaryPrefix);
    FirstCharDiffers(line, "@@ ");
  }

  /** `--- a/n` then `+++ b/n` name both sides of the current file `n`. */
  lemma NamePair(lines: seq<string>, k: nat, st: State, fs: seq<DiffFile>, f: DiffFile, n: string)
    requires k + 2 <= |lines| && StateAfter(lines, k) == Ok(st) && st.files == fs + [f]
    requires lines[k] == "--- " + ("a/" + n) && lines[k + 1] == "+++ " + ("b/" + n)
    ensures StateAfter(lines, k + 2) == Ok(st.(files := fs + [f.(origName := n, newName := n)],
                                               position := st.position + 2))
  {
    var s1 := st.(files := fs + [f.(origName := n)], position := st.position + 1);
    assert StateAfter(lines, k + 1) == Ok(s1) by {
      StateAfterNext(lines, k, st);
      OrigNameStep(lines, k, st, n);
      ReplaceAppended(fs, f, f.(origName := n));
    }
    StateAfterNext(lines, k + 1, s1);
    NewNameStep(lines, k + 1, s1, n);
    ReplaceAppended(fs, f.(origName := n), f.(origName := n, newName := n));
  }

  /** A `diff ` line and an index line open a file and move on by two. */
  lemma DiffThenIndex(lines: seq<string>, j: nat, st: State)
    requires j + 2 <= |lines| && StateAfter(lines, j) == Ok(st)
    requires HasPrefix(lines[j], "diff ") && IsIndexLine(lines[j + 1])
    ensures StateAfter(lines, j + 2) == Ok(State(
      st.files + [DiffFile(DiffHeaderAt(lines, j), Modified, "", "", [], 0)],
      st.addedCount, st.removedCount, false, st.position + 2, true))
  {
    var s1 := State(st.files + [DiffFile(DiffHeaderAt(lines, j), Modified, "", "", [], 0)],
      st.addedCount, st.removedCount, false, st.position + 1, true);
    assert StateAfter(lines, j + 1) == Ok(s1) by {
      StateAfterNext(lines, j, st);
      StepDiffLine(lines, j, st);
    }
    IndexLineIsBody(lines[j + 1]);
    StateAfterNext(lines, j + 1, s1);
    StepSkippedLine(lines, j + 1, s1);
  }

  /** `--- a/n` and `+++ b/n` are the marker lines `^(-|\+){3} .+$` asks for. */
  lemma NameLinesAreMarkers(n: string)
    requires '\n' !in n
    ensures IsMarkerLine("--- " + ("a/" + n)) && IsMarkerLine("+++ " + ("b/" + n))
  {
    var o, w := "--- " + ("a/" + n), "+++ " + ("b/" + n);
    assert o[..4] == "--- " && w[..4] == "+++ ";
    assert forall i | 4 <= i < |o| :: o[i] == ("a/" + n)[i - 4];
    assert forall i | 4 <= i < |w| :: w[i] == ("b/" + n)[i - 4];
  }

  /** With an index line and two marker lines after it, all four lines
      make up the header. */
  lemma FullHeader(lines: seq<string>, j: nat)
    requires j + 3 < |lines| && IsIndexLine(lines[j + 1])
    requires IsMarkerLine(lines[j + 2]) && IsMarkerLine(lines[j + 3])
    ensures DiffHeaderAt(lines, j)
      == lines[j] + ("\n" + lines[j + 1]) + ("\n" + lines[j + 2] + "\n" + lines[j + 3])
  {
  }

  /** The header git writes for a modified file: `diff `, an index line,
      `--- a/n` and `+++ b/n`, in front of a hunk header. One Modified file
      named `n` on both sides is appended, and all four lines make up its
      header. */
  lemma GitFileHeader(lines: seq<string>, j: nat, st: State, n: string)
    requires j + 5 <= |lines| && StateAfter(lines, j) == Ok(st)
    requires HasPrefix(lines[j], "diff ") && IsIndexLine(lines[j + 1]) && HasPrefix(lines[j + 4], "@@ ")
    requires lines[j + 2] == "--- " + ("a/" + n) && lines[j + 3] == "+++ " + ("b/" + n) && '\n' !in n
    ensures StateAfter(lines, j + 4) == Ok(State(
      st.files + [DiffFile(lines[j] + ("\n" + lines[j + 1]) + ("\n" + lines[j + 2] + "\n" + lines[j + 3]),
                           Modified, n, n, [], 0)],
      st.addedCount, st.removedCount, false, st.position + 4, true))
  {
    NameLinesAreMarkers(n);
    FullHeader(lines, j);
    var f0 := DiffFile(DiffHeaderAt(lines, j), Modified, "", "", [], 0);
    DiffThenIndex(lines, j, st);
    NamePair(lines, j + 2, State(st.files + [f0], st.addedCount, st.removedCount, false, st.position + 2, true),
             st.files, f0, n);
  }

  /** A hunk header folds a new empty hunk onto the current file. */
  lemma FoldHunkHeader(lines: seq<string>, k: nat, st: State, hh: HunkFields)
    requires k < |lines| && StateAfter(lines, k) == Ok(st) && |st.files| > 0
    requires HasPrefix(lines[k], "@@ ") && MatchHunkHeader(lines[k]) == Some(hh)
    ensures StateAfter(lines, k + 1) == Ok(State(
      ReplaceLast(st.files, Last(st.files).(hunks := Last(st.files).hunks
        + [EmptyHunk(hh.context, hh.origStart, hh.origLength, hh.newStart, hh.newLength)])),
      hh.newStart, hh.origStart, true,
      if st.firstHunkInFile then 0 else st.position + 1,
      false))
  {
    StateAfterNext(lines, k, st);
    StepHunkState(lines, k, st, hh);
  }

  /** A hunk receiving an unchanged, a removed and an added line, in that
      order: each range holds exactly the lines of its side, numbered from
      that side's start, and the whole range holds all three. */
  lemma ThreeLineHunk(hh: HunkFields, a: string, b: string, c: string)
    ensures
      var h := EmptyHunk(hh.context, hh.origStart, hh.origLength, hh.newStart, hh.newLength);
      var h5 := AddLine(h, Unchanged, a, 1, hh.newStart, hh.origStart);
      var h6 := AddLine(h5, Removed, b, 2, hh.newStart + 1, hh.origStart + 1);
      AddLine(h6, Added, c, 3, hh.newStart + 1, hh.origStart + 2)
      == DiffHunk(hh.context,
          DiffRange(hh.origStart, hh.origLength,
            [DiffLine(Unchanged, hh.origStart, a, 1), DiffLine(Removed, hh.origStart + 1, b, 2)]),
          DiffRange(hh.newStart, hh.newLength,
            [DiffLine(Unchanged, hh.newStart, a, 1), DiffLine(Added, hh.newStart + 1, c, 3)]),
          DiffRange(0, 0,
            [DiffLine(Unchanged, hh.newStart, a, 1), DiffLine(Removed, hh.origStart + 1, b, 2),
             DiffLine(Added, hh.newStart + 1, c, 3)]))
  {
    var la, lo := DiffLine(Unchanged, hh.newStart, a, 1), DiffLine(Unchanged, hh.origStart, a, 1);
    var lb, lc := DiffLine(Removed, hh.origStart + 1, b, 2), DiffLine(Added, hh.newStart + 1, c, 3);
    assert [] + [la] == [la] && [] + [lo] == [lo];
    assert [lo] + [lb] == [lo, lb] && [la] + [lb] == [la, lb] && [la] + [lc] == [la, lc];
    assert [la, lb] + [lc] == [la, lb, lc];
  }

  /** The first hunk of the package's own example, `@@ -1,4 +1,4 @@` with
      the lines `+add a line`, ` some`, ` lines`, `-in` and ` file1` at
      positions 1 to 5, each added with the counters as `ContentStep` leaves
      them: the orig side numbers `some`, `lines`, `in` and `file1` 1 to 4, and
      the new side numbers `add a line`, `some`, `lines` and `file1` 1 to 4. */
  lemma ExampleHunk()
    ensures
      var h0 := EmptyHunk("", 1, 4, 1, 4);
      var h1 := AddLine(h0, Added, "add a line", 1, 1, 1);
      var h2 := AddLine(h1, Unchanged, "some", 2, 2, 1);
      var h3 := AddLine(h2, Unchanged, "lines", 3, 3, 2);
      var h4 := AddLine(h3, Removed, "in", 4, 4, 3);
      var h5 := AddLine(h4, Unchanged, "file1", 5, 4, 4);
      && h5.origRange == DiffRange(1, 4, [
           DiffLine(Unchanged, 1, "some", 2), DiffLine(Unchanged, 2, "lines", 3),
           DiffLine(Removed, 3, "in", 4), DiffLine(Unchanged, 4, "file1", 5)])
      && h5.newRange == DiffRange(1, 4, [
           DiffLine(Added, 1, "add a line", 1), DiffLine(Unchanged, 2, "some", 2),
           DiffLine(Unchanged, 3, "lines", 3), DiffLine(Unchanged, 4, "file1", 5)])
  {
  }

  /** A line written with a mode character is content with that mode,
      unless it reads as a `---` or `+++` marker. */
  lemma WrittenIsContent(line: string, m: LineMode, t: string)
    requires line == [ModeChar(m)] + t
    requires !(m == Removed && HasPrefix(t, "--")) && !(m == Added && HasPrefix(t, "++"))
    ensures IsContent(line) && LineModeOf(line) == Some(m) && line[1..] == t
  {
    WrittenContentLine(m, t);
    IsSourceLineWritten(m, t);
    LineModeOfWritten(m, t);
  }

  /** Inside a hunk, a removed line whose text starts `-- ` is written
      `--- …` and is taken for an orig-name line: its text becomes the
      current file's orig name, and the hunk, the counters and the open hunk
      stay as they were. */
  lemma SwallowedRemovedLine(lines: seq<string>, idx: nat, st: State, t: string)
    requires idx < |lines| && Coherent(st) && st.inHunk
    requires lines[idx] == [ModeChar(Removed)] + ("-- " + t) && t != "/dev/null"
    ensures LineModeOf(lines[idx]) == Some(Removed) && lines[idx][1..] == "-- " + t
    ensures !IsContent(lines[idx])
    ensures Step(lines, idx, st) == Ok(st.(
      files := ReplaceLast(st.files, Last(st.files).(origName := ParseFileName(t))),
      position := st.position + 1))
  {
    var l := lines[idx];
    assert l == "--- " + t && l[..3] == "---" && l[4..] == t;
    assert HasPrefix(l, "--- ");
    StepOrigName(lines, idx, st, "--- ");
  }

  /** Inside a hunk, an added line whose text starts `++ ` is written
      `+++ …` and is taken for a new-name line, the same way. */
  lemma SwallowedAddedLine(lines: seq<string>, idx: nat, st: State, t: string)
    requires idx < |lines| && Coherent(st) && st.inHunk
    requires lines[idx] == [ModeChar(Added)] + ("++ " + t) && t != "/dev/null"
    ensures LineModeOf(lines[idx]) == Some(Added) && lines[idx][1..] == "++ " + t
    ensures !IsContent(lines[idx])
    ensures Step(lines, idx, st) == Ok(st.(
      files := ReplaceLast(st.files, Last(st.files).(newName := ParseFileName(t))),
      position := st.position + 1))
  {
    var l := lines[idx];
    assert l == "+++ " + t && l[..3] == "+++" && l[4..] == t;
    assert HasPrefix(l, "+++ ");
    StepNewName(lines, idx, st, "+++ ");
  }

  /** A content line folds onto the only hunk of the last file: the line
      is appended to that hunk numbered by the counters as they stood, the
      counter of each side that received it moves on, and the position
      advances by one. */
  lemma ContentStep(lines: seq<string>, idx: nat, st: State, fs: seq<DiffFile>, f: DiffFile, h: DiffHunk,
                    m: LineMode, t: string)
    requires idx < |lines| && StateAfter(lines, idx) == Ok(st)
    requires st.files == fs + [f.(hunks := [h])] && st.inHunk
    requires IsContent(lines[idx]) && LineModeOf(lines[idx]) == Some(m) && lines[idx][1..] == t
    ensures StateAfter(lines, idx + 1) == Ok(State(
      fs + [f.(hunks := [AddLine(h, m, t, st.position + 1, st.addedCount, st.removedCount)])],
      NextAdded(m, st.addedCount), NextRemoved(m, st.removedCount), true, st.position + 1, st.firstHunkInFile))
  {
    var h' := AddLine(h, m, t, st.position + 1, st.addedCount, st.removedCount);
    StateAfterNext(lines, idx, st);
    StepContentState(lines, idx, st, m);
    assert Last(st.files) == f.(hunks := [h]);
    assert Last([h]) == h;
    ReplaceAppended([], h, h');
    assert [] + [h] == [h] && [] + [h'] == [h'];
    assert ReplaceLast([h], h') == [h'];
    ReplaceAppended(fs, f.(hunks := [h]), f.(hunks := [h']));
  }
}
