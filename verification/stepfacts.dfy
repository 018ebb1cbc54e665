/** What one line does to the parse state, stated in terms of the line's
    text: which lines open a file, which only touch the current file, how the
    position counter moves, when a line is an error, and what hunk headers,
    content lines and file-header lines change. */
module StepFacts {
  import opened Results
  import opened Text
  import opened DiffModel
  import opened FileNames
  import opened LineClass
  import opened HunkHeader
  import opened RangeBuilder
  import opened Parser

  /** Each `diff ` line appends exactly one new Modified file with no names
      and no hunks and closes any open hunk; every other line keeps the
      number of files, leaves all but the current file alone and never
      changes a file's header. */
  lemma StepFileEntries(lines: seq<string>, idx: nat, st: State)
    requires idx < |lines| && Coherent(st) && Step(lines, idx, st).Ok?
    ensures HasPrefix(lines[idx], "diff ") ==>
      Step(lines, idx, st).value.files
        == st.files + [DiffFile(DiffHeaderAt(lines, idx), Modified, "", "", [], 0)]
      && !Step(lines, idx, st).value.inHunk
      && Step(lines, idx, st).value.firstHunkInFile
    ensures !HasPrefix(lines[idx], "diff ") ==>
      && |Step(lines, idx, st).value.files| == |st.files|
      && (forall k | 0 <= k < |st.files| - 1 :: Step(lines, idx, st).value.files[k] == st.files[k])
      && (forall k | 0 <= k < |st.files| ::
            Step(lines, idx, st).value.files[k].diffHeader == st.files[k].diffHeader)
      && (Step(lines, idx, st).value.inHunk ==> st.inHunk || HasPrefix(lines[idx], "@@ "))
  {
    ClassifyByPrefix(lines[idx]);
  }

  /** The whole state after a `diff ` line: one new file, counters kept,
      the hunk closed, the position moved on and the file waiting for its
      first hunk. */
  lemma StepDiffLine(lines: seq<string>, idx: nat, st: State)
    requires idx < |lines| && Coherent(st) && HasPrefix(lines[idx], "diff ")
    ensures Step(lines, idx, st) == Ok(State(
      st.files + [DiffFile(DiffHeaderAt(lines, idx), Modified, "", "", [], 0)],
      st.addedCount, st.removedCount, false, st.position + 1, true))
  {
    ClassifyByPrefix(lines[idx]);
  }

  /** The position counter moves by one on every line, and drops to 0 on the
      first hunk header after a `diff ` line. */
  lemma StepPosition(lines: seq<string>, idx: nat, st: State)
    requires idx < |lines| && Coherent(st) && Step(lines, idx, st).Ok?
    ensures Step(lines, idx, st).value.position
      == (if HasPrefix(lines[idx], "@@ ") && st.firstHunkInFile then 0 else st.position + 1)
    ensures Step(lines, idx, st).value.firstHunkInFile
      == (HasPrefix(lines[idx], "diff ") || (st.firstHunkInFile && !HasPrefix(lines[idx], "@@ ")))
  {
    ClassifyByPrefix(lines[idx]);
  }

  /** The four ways a line stops the parse. A header line before any file is
      the source's nil dereference; a `@@ ` line that does not match the hunk
      header expression, a `Binary files` line whose middle does not cut into
      exactly two names, and a content line with an unknown first character
      are the errors it returns. Nothing else fails. */
  lemma StepErrors(lines: seq<string>, idx: nat, st: State)
    requires idx < |lines| && Coherent(st)
    ensures Step(lines, idx, st) == Err(NilFile(lines[idx])) <==>
      |st.files| == 0 && NeedsFile(lines[idx])
    ensures Step(lines, idx, st) == Err(MalformedHunkHeader(lines[idx])) <==>
      |st.files| > 0 && HasPrefix(lines[idx], "@@ ") && MatchHunkHeader(lines[idx]).None?
    ensures Step(lines, idx, st) == Err(MalformedBinaryMarker(lines[idx])) <==>
      |st.files| > 0 && HasPrefix(lines[idx], BinaryPrefix) && |BinaryNames(lines[idx])| != 2
    ensures Step(lines, idx, st) == Err(UnrecognizedLineMode(lines[idx])) <==>
      st.inHunk && IsContent(lines[idx])
      && lines[idx][0] != ' ' && lines[idx][0] != '+' && lines[idx][0] != '-'
    ensures Step(lines, idx, st).Err? ==> Step(lines, idx, st).error.line == lines[idx]
  {
    ClassifyByPrefix(lines[idx]);
  }

  /** Without a current file, a line other than `diff ` either stops the
      parse, when it needs the file, or only moves the position on. */
  lemma StepWithoutFile(lines: seq<string>, idx: nat, st: State)
    requires idx < |lines| && Coherent(st) && |st.files| == 0 && !HasPrefix(lines[idx], "diff ")
    ensures Step(lines, idx, st) ==
      if NeedsFile(lines[idx]) then Err(NilFile(lines[idx])) else Ok(st.(position := st.position + 1))
  {
  }

  /** A header line other than `diff `, once there is a current file, is
      handled by `HeaderStep` on the state whose position has moved on. */
  lemma StepHeaderLine(lines: seq<string>, idx: nat, st: State)
    requires idx < |lines| && Coherent(st) && |st.files| > 0 && NeedsFile(lines[idx])
    ensures Step(lines, idx, st) == HeaderStep(lines[idx], st.(position := st.position + 1), Classify(lines[idx]))
  {
    var kind := Classify(lines[idx]);
    assert !kind.FileStart? && !kind.Body?;
  }

  /** A hunk header opens a new hunk on the current file with the declared
      ranges and context, reseeds both counters from the two starts and opens
      the hunk; the file's earlier hunks, mode and names stay as they were. */
  lemma StepHunkHeader(lines: seq<string>, idx: nat, st: State, hh: HunkFields)
    requires idx < |lines| && Coherent(st) && |st.files| > 0
    requires HasPrefix(lines[idx], "@@ ") && MatchHunkHeader(lines[idx]) == Some(hh)
    ensures Step(lines, idx, st).Ok?
    ensures
      var st' := Step(lines, idx, st).value;
      var f := Last(st.files);
      && |st'.files| == |st.files|
      && Last(st'.files) == f.(hunks := f.hunks + [DiffHunk(hh.context, DiffRange(hh.origStart, hh.origLength, []),
                                                            DiffRange(hh.newStart, hh.newLength, []), DiffRange(0, 0, []))])
      && st'.addedCount == hh.newStart && st'.removedCount == hh.origStart
      && st'.inHunk && !st'.firstHunkInFile
  {
    ClassifyByPrefix(lines[idx]);
    assert Classify(lines[idx]) == HunkStart;
    StepHeaderLine(lines, idx, st);
  }

  /** The whole state after a hunk header: the current file gains the new
      empty hunk, both counters restart at the declared starts, the hunk is
      open, and the position drops to 0 on a file's first hunk. */
  lemma StepHunkState(lines: seq<string>, idx: nat, st: State, hh: HunkFields)
    requires idx < |lines| && Coherent(st) && |st.files| > 0
    requires HasPrefix(lines[idx], "@@ ") && MatchHunkHeader(lines[idx]) == Some(hh)
    ensures Step(lines, idx, st) == Ok(State(
      ReplaceLast(st.files, Last(st.files).(hunks := Last(st.files).hunks
        + [EmptyHunk(hh.context, hh.origStart, hh.origLength, hh.newStart, hh.newLength)])),
      hh.newStart, hh.origStart, true,
      if st.firstHunkInFile then 0 else st.position + 1,
      false))
  {
    ClassifyByPrefix(lines[idx]);
    assert Classify(lines[idx]) == HunkStart;
    StepHeaderLine(lines, idx, st);
  }

  /** A line matching no header that does not join an open hunk (any such
      line outside a hunk; inside one the empty line, the no-newline marker,
      or `---`/`+++` not followed by a space) only moves the position
      counter: no range and no line counter changes. */
  lemma StepSkippedLine(lines: seq<string>, idx: nat, st: State)
    requires idx < |lines| && Coherent(st)
    requires Classify(lines[idx]) == Body && !(st.inHunk && IsSourceLine(lines[idx]))
    ensures Step(lines, idx, st) == Ok(st.(position := st.position + 1))
  {
  }

  /** Inside a hunk, a content line whose first character is ` `, `+` or `-`
      joins the current hunk: the whole range gains exactly one line with
      that mode, the rest of the text as content and the new position, and
      each side's counter moves when that side received the line. */
  lemma StepContentLine(lines: seq<string>, idx: nat, st: State, m: LineMode)
    requires idx < |lines| && Coherent(st) && st.inHunk
    requires IsContent(lines[idx]) && LineModeOf(lines[idx]) == Some(m)
    ensures Step(lines, idx, st).Ok?
    ensures
      var st' := Step(lines, idx, st).value;
      var f := Last(st.files);
      var f' := Last(st'.files);
      && |f'.hunks| == |f.hunks|
      && f' == f.(hunks := f'.hunks)
      && Last(f'.hunks) == AddLine(Last(f.hunks), m, lines[idx][1..], st.position + 1, st.addedCount, st.removedCount)
      && st'.addedCount == NextAdded(m, st.addedCount)
      && st'.removedCount == NextRemoved(m, st.removedCount)
      && st'.inHunk
  {
  }

  /** A line written with a mode character is hunk content exactly when it
      is a source line, and then it reads back with that mode: no header
      prefix survives the source-line test. */
  lemma WrittenContentLine(m: LineMode, content: string)
    ensures IsContent([ModeChar(m)] + content) <==> IsSourceLine([ModeChar(m)] + content)
    ensures LineModeOf([ModeChar(m)] + content) == Some(m)
  {
    var line := [ModeChar(m)] + content;
    LineModeOfWritten(m, content);
    ClassifyByPrefix(line);
    if IsSourceLine(line) {
      assert Classify(line) == Body;
    }
  }

  /** The whole state after a content line of mode `m`. */
  lemma StepContentState(lines: seq<string>, idx: nat, st: State, m: LineMode)
    requires idx < |lines| && Coherent(st) && st.inHunk
    requires IsContent(lines[idx]) && LineModeOf(lines[idx]) == Some(m)
    ensures Step(lines, idx, st) == Ok(AddContent(st, m, lines[idx][1..], st.position + 1))
  {
  }

  /** The exact `/dev/null` lines set the mode and leave everything else
      alone: `+++ /dev/null` marks the file Deleted, `--- /dev/null` New. */
  lemma StepDevNull(lines: seq<string>, idx: nat, st: State)
    requires idx < |lines| && Coherent(st) && |st.files| > 0
    requires lines[idx] == "+++ /dev/null" || lines[idx] == "--- /dev/null"
    ensures Step(lines, idx, st) == Ok(st.(
      files := ReplaceLast(st.files, Last(st.files).(mode := if lines[idx][0] == '+' then Deleted else New)),
      position := st.position + 1))
  {
    ClassifyByPrefix(lines[idx]);
    StepHeaderLine(lines, idx, st);
  }

  /** `similarity index N%` marks the file Renamed with index N (0 when N
      does not read as a number); nothing else changes. */
  lemma StepSimilarity(lines: seq<string>, idx: nat, st: State)
    requires idx < |lines| && Coherent(st) && |st.files| > 0
    requires HasPrefix(lines[idx], SimilarityPrefix)
    ensures Step(lines, idx, st) == Ok(st.(
      files := ReplaceLast(st.files, Last(st.files).(mode := Renamed, similarityIndex := SimilarityValue(lines[idx]))),
      position := st.position + 1))
  {
    ClassifyByPrefix(lines[idx]);
    assert Classify(lines[idx]) == Similarity(SimilarityValue(lines[idx]));
    StepHeaderLine(lines, idx, st);
  }

  /** `--- name` and `rename from name` set the original name only, through
      `ParseFileName`; the mode is untouched, so a rename alone does not make
      a file Renamed. */
  lemma StepOrigName(lines: seq<string>, idx: nat, st: State, p: string)
    requires idx < |lines| && Coherent(st) && |st.files| > 0
    requires p == "--- " || p == RenameFromPrefix
    requires HasPrefix(lines[idx], p) && lines[idx] != "--- /dev/null"
    ensures Step(lines, idx, st) == Ok(st.(
      files := ReplaceLast(st.files, Last(st.files).(origName := ParseFileName(lines[idx][|p|..]))),
      position := st.position + 1))
  {
    ClassifyByPrefix(lines[idx]);
    if p == "--- " {
      assert Classify(lines[idx]) == OrigNameLine(ParseFileName(lines[idx][4..]));
    } else {
      assert Classify(lines[idx]) == RenameFrom(ParseFileName(lines[idx][12..]));
    }
    StepHeaderLine(lines, idx, st);
  }

  /** `+++ name` and `rename to name` set the new name only. */
  lemma StepNewName(lines: seq<string>, idx: nat, st: State, p: string)
    requires idx < |lines| && Coherent(st) && |st.files| > 0
    requires p == "+++ " || p == RenameToPrefix
    requires HasPrefix(lines[idx], p) && lines[idx] != "+++ /dev/null"
    ensures Step(lines, idx, st) == Ok(st.(
      files := ReplaceLast(st.files, Last(st.files).(newName := ParseFileName(lines[idx][|p|..]))),
      position := st.position + 1))
  {
    ClassifyByPrefix(lines[idx]);
    if p == "+++ " {
      assert Classify(lines[idx]) == NewNameLine(ParseFileName(lines[idx][4..]));
    } else {
      assert Classify(lines[idx]) == RenameTo(ParseFileName(lines[idx][10..]));
    }
    StepHeaderLine(lines, idx, st);
  }

  /** A `Binary files A and B differ` line that cuts into two names sets
      both names and marks the file Modified. */
  lemma StepBinary(lines: seq<string>, idx: nat, st: State)
    requires idx < |lines| && Coherent(st) && |st.files| > 0
    requires HasPrefix(lines[idx], BinaryPrefix) && |BinaryNames(lines[idx])| == 2
    ensures Step(lines, idx, st) == Ok(st.(
      files := ReplaceLast(st.files, Last(st.files).(
        mode := Modified,
        origName := ParseFileName(BinaryNames(lines[idx])[0]),
        newName := ParseFileName(BinaryNames(lines[idx])[1]))),
      position := st.position + 1))
  {
    ClassifyByPrefix(lines[idx]);
    assert Classify(lines[idx]) == BinaryLine(BinaryNames(lines[idx]));
    StepHeaderLine(lines, idx, st);
  }
}
