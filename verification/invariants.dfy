/** What holds of every state the parse reaches, and so of every diff
    `Parse` returns: each hunk keeps its three ranges consistent and
    consecutively numbered, and within a file the positions of the content
    lines strictly increase. Also which lines become files, and what happens
    to a text with no `diff ` line at all. */
module ParseInvariants {
  import opened Results
  import opened Text
  import opened DiffModel
  import opened FileNames
  import opened LineClass
  import opened HunkHeader
  import opened RangeBuilder
  import opened Parser
  import opened StepFacts

  /** The content lines of a file, hunk after hunk, as the whole ranges
      hold them. */
  function FileLines(hunks: seq<DiffHunk>): seq<DiffLine>
  {
    if |hunks| == 0 then [] else FileLines(hunks[..|hunks| - 1]) + Last(hunks).wholeRange.lines
  }

  predicate PositionsIncrease(ls: seq<DiffLine>) {
    forall i, j | 0 <= i < j < |ls| :: ls[i].position < ls[j].position
  }

  predicate PositionsPositive(ls: seq<DiffLine>) {
    forall i | 0 <= i < |ls| :: ls[i].position >= 1
  }

  predicate PositionsAtMost(ls: seq<DiffLine>, p: int) {
    forall i | 0 <= i < |ls| :: ls[i].position <= p
  }

  /** A file as the parse leaves it. */
  predicate FileOk(f: DiffFile) {
    && (forall k | 0 <= k < |f.hunks| :: HunkOk(f.hunks[k]))
    && PositionsIncrease(FileLines(f.hunks))
    && PositionsPositive(FileLines(f.hunks))
  }

  predicate Inv(st: State) {
    && Coherent(st)
    && (forall k | 0 <= k < |st.files| :: FileOk(st.files[k]))
    && st.position >= 0
    && (|st.files| > 0 ==> PositionsAtMost(FileLines(Last(st.files).hunks), st.position))
    && (st.firstHunkInFile ==> |st.files| > 0 && Last(st.files).hunks == [])
    && (st.inHunk ==> CountersAgree(Last(Last(st.files).hunks), st.addedCount, st.removedCount))
  }

  lemma FileLinesAppend(hs: seq<DiffHunk>, h: DiffHunk)
    ensures FileLines(hs + [h]) == FileLines(hs) + h.wholeRange.lines
  {
    assert (hs + [h])[..|hs|] == hs;
  }

  /** Growing the last hunk's whole range by one line grows the file's lines
      by that line. */
  lemma FileLinesGrowLast(init: seq<DiffHunk>, prev: DiffHunk, h: DiffHunk, x: DiffLine)
    requires h.wholeRange.lines == prev.wholeRange.lines + [x]
    ensures FileLines(init + [h]) == FileLines(init + [prev]) + [x]
  {
    assert (init + [h])[..|init|] == init;
    assert (init + [prev])[..|init|] == init;
  }

  /** A line placed after every earlier one keeps the positions in order. */
  lemma PositionsExtend(ls: seq<DiffLine>, x: DiffLine, p: int)
    requires PositionsIncrease(ls) && PositionsPositive(ls) && PositionsAtMost(ls, p)
    requires x.position == p + 1 && p >= 0
    ensures PositionsIncrease(ls + [x]) && PositionsPositive(ls + [x]) && PositionsAtMost(ls + [x], p + 1)
  {
    var ls' := ls + [x];
    forall i, j | 0 <= i < j < |ls'| ensures ls'[i].position < ls'[j].position {
      assert ls'[i] == ls[i];
      if j < |ls| {
        assert ls'[j] == ls[j];
      }
    }
  }

  lemma HunksReplaceLast(init: seq<DiffHunk>, prev: DiffHunk, h: DiffHunk)
    requires forall k | 0 <= k < |init + [prev]| :: HunkOk((init + [prev])[k])
    requires HunkOk(h)
    ensures forall k | 0 <= k < |init + [h]| :: HunkOk((init + [h])[k])
  {
    forall k | 0 <= k < |init + [h]| ensures HunkOk((init + [h])[k]) {
      if k < |init| {
        assert (init + [h])[k] == (init + [prev])[k];
      }
    }
  }

  /** The hunks of a file with one line added to the current hunk at a
      position past every earlier one still form a well-formed file. */
  lemma ContentKeepsFileOk(f: DiffFile, init: seq<DiffHunk>, prev: DiffHunk, h: DiffHunk, x: DiffLine, p: int)
    requires f.hunks == init + [prev] && FileOk(f) && HunkOk(h)
    requires h.wholeRange.lines == prev.wholeRange.lines + [x]
    requires PositionsAtMost(FileLines(f.hunks), p) && x.position == p + 1 && p >= 0
    ensures FileOk(f.(hunks := init + [h]))
    ensures PositionsAtMost(FileLines(init + [h]), p + 1)
  {
    FileLinesGrowLast(init, prev, h, x);
    PositionsExtend(FileLines(f.hunks), x, p);
    HunksReplaceLast(init, prev, h);
  }

  /** A content line keeps the invariant. */
  lemma ContentKeepsInv(lines: seq<string>, idx: nat, st: State, m: LineMode)
    requires idx < |lines| && Inv(st) && st.inHunk
    requires IsContent(lines[idx]) && LineModeOf(lines[idx]) == Some(m)
    ensures Step(lines, idx, st).Ok? && Inv(Step(lines, idx, st).value)
  {
    StepContentState(lines, idx, st, m);
    AddContentKeepsInv(st, m, lines[idx][1..]);
  }

  /** Adding a line to the open hunk, one position on, keeps the invariant. */
  lemma AddContentKeepsInv(st: State, m: LineMode, content: string)
    requires Inv(st) && st.inHunk
    ensures Inv(AddContent(st, m, content, st.position + 1))
  {
    var f := Last(st.files);
    var init, h := f.hunks[..|f.hunks| - 1], Last(f.hunks);
    var h' := AddLine(h, m, content, st.position + 1, st.addedCount, st.removedCount);
    var f' := f.(hunks := init + [h']);
    var st' := AddContent(st, m, content, st.position + 1);
    AddContentShape(st, m, content, st.position + 1);
    assert FileOk(f) && CountersAgree(h, st.addedCount, st.removedCount);
    GrownFileOk(f, init, h, m, content, st.position + 1, st.addedCount, st.removedCount);
    FilesReplaceLast(st.files, f');
    InvIntro(st');
  }

  /** `AddContent` spelled out with the current file cut into its earlier
      hunks and the open one. */
  lemma AddContentShape(st: State, m: LineMode, content: string, pos: int)
    requires Coherent(st) && st.inHunk
    ensures
      var f := Last(st.files);
      var init, h := f.hunks[..|f.hunks| - 1], Last(f.hunks);
      && f.hunks == init + [h]
      && AddContent(st, m, content, pos) == State(
        ReplaceLast(st.files, f.(hunks := init + [AddLine(h, m, content, pos, st.addedCount, st.removedCount)])),
        NextAdded(m, st.addedCount), NextRemoved(m, st.removedCount), st.inHunk, pos, st.firstHunkInFile)
  {
    var f := Last(st.files);
    var init, h := f.hunks[..|f.hunks| - 1], Last(f.hunks);
    assert f.hunks == init + [h];
    ReplaceAppended(init, h, AddLine(h, m, content, pos, st.addedCount, st.removedCount));
  }

  /** `Inv`, conjunct by conjunct. */
  lemma InvIntro(st: State)
    requires Coherent(st) && st.position >= 0
    requires forall k | 0 <= k < |st.files| :: FileOk(st.files[k])
    requires |st.files| > 0 ==> PositionsAtMost(FileLines(Last(st.files).hunks), st.position)
    requires st.firstHunkInFile ==> |st.files| > 0 && Last(st.files).hunks == []
    requires st.inHunk ==> CountersAgree(Last(Last(st.files).hunks), st.addedCount, st.removedCount)
    ensures Inv(st)
  {
  }

  /** A file with one more line in its last hunk, one position past every
      earlier line, is still well formed. */
  lemma GrownFileOk(f: DiffFile, init: seq<DiffHunk>, h: DiffHunk, m: LineMode, content: string,
                    pos: int, added: int, removed: int)
    requires f.hunks == init + [h] && FileOk(f) && pos >= 1
    requires PositionsAtMost(FileLines(f.hunks), pos - 1)
    requires CountersAgree(h, added, removed)
    ensures
      var h' := AddLine(h, m, content, pos, added, removed);
      var f' := f.(hunks := init + [h']);
      && FileOk(f')
      && PositionsAtMost(FileLines(f'.hunks), pos)
      && Last(f'.hunks) == h'
      && CountersAgree(h', NextAdded(m, added), NextRemoved(m, removed))
  {
    var h' := AddLine(h, m, content, pos, added, removed);
    assert HunkOk(h) by { assert h == f.hunks[|init|]; }
    AddLineKeepsHunkOk(h, m, content, pos, added, removed);
    ContentKeepsFileOk(f, init, h, h', WholeLine(m, content, pos, added, removed), pos - 1);
  }

  /** Replacing the last file by a well-formed one keeps every file well formed. */
  lemma FilesReplaceLast(fs: seq<DiffFile>, f': DiffFile)
    requires |fs| > 0 && (forall k | 0 <= k < |fs| :: FileOk(fs[k])) && FileOk(f')
    ensures forall k | 0 <= k < |ReplaceLast(fs, f')| :: FileOk(ReplaceLast(fs, f')[k])
  {
    forall k | 0 <= k < |ReplaceLast(fs, f')| ensures FileOk(ReplaceLast(fs, f')[k]) {
      if k < |fs| - 1 {
        assert ReplaceLast(fs, f')[k] == fs[k];
      }
    }
  }

  /** A header line that changes only the current file's mode, names or
      similarity index keeps the invariant. */
  lemma FileFieldsKeepInv(st: State, f: DiffFile)
    requires Inv(st) && |st.files| > 0 && f.hunks == Last(st.files).hunks
    ensures Inv(st.(files := ReplaceLast(st.files, f), position := st.position + 1))
  {
    assert FileOk(Last(st.files));
  }

  lemma HunksAppend(hs: seq<DiffHunk>, h: DiffHunk)
    requires forall k | 0 <= k < |hs| :: HunkOk(hs[k])
    requires HunkOk(h)
    ensures forall k | 0 <= k < |hs + [h]| :: HunkOk((hs + [h])[k])
  {
    forall k | 0 <= k < |hs + [h]| ensures HunkOk((hs + [h])[k]) {
      if k < |hs| {
        assert (hs + [h])[k] == hs[k];
      }
    }
  }

  /** Opening an empty hunk on the current file, with the counters at its
      starts, keeps the invariant wherever the position counter goes, as long
      as it drops to 0 only when the file has no lines yet. */
  lemma NewHunkKeepsInv(st: State, h: DiffHunk, added: int, removed: int, pos: int)
    requires Inv(st) && |st.files| > 0 && HunkOk(h) && h.wholeRange.lines == []
    requires CountersAgree(h, added, removed)
    requires pos >= st.position || (pos == 0 && Last(st.files).hunks == [])
    requires pos >= 0
    ensures
      var f := Last(st.files);
      Inv(State(ReplaceLast(st.files, f.(hunks := f.hunks + [h])), added, removed, true, pos, false))
  {
    var f := Last(st.files);
    var f' := f.(hunks := f.hunks + [h]);
    var st' := State(ReplaceLast(st.files, f'), added, removed, true, pos, false);
    assert FileOk(f);
    FileLinesAppend(f.hunks, h);
    assert FileLines(f'.hunks) == FileLines(f.hunks);
    HunksAppend(f.hunks, h);
    assert FileOk(f');
    forall k | 0 <= k < |st'.files| ensures FileOk(st'.files[k]) {
      if k < |st.files| - 1 {
        assert st'.files[k] == st.files[k];
      }
    }
  }

  lemma HunkStartKeepsInv(lines: seq<string>, idx: nat, st: State, hh: HunkFields)
    requires idx < |lines| && Inv(st) && |st.files| > 0
    requires HasPrefix(lines[idx], "@@ ") && MatchHunkHeader(lines[idx]) == Some(hh)
    ensures Step(lines, idx, st).Ok? && Inv(Step(lines, idx, st).value)
  {
    StepHunkState(lines, idx, st, hh);
    var h := EmptyHunk(hh.context, hh.origStart, hh.origLength, hh.newStart, hh.newLength);
    var pos := if st.firstHunkInFile then 0 else st.position + 1;
    NewHunkKeepsInv(st, h, hh.newStart, hh.origStart, pos);
  }

  /** One line keeps the invariant. */
  lemma StepKeepsInv(lines: seq<string>, idx: nat, st: State)
    requires idx < |lines| && Inv(st) && Step(lines, idx, st).Ok?
    ensures Inv(Step(lines, idx, st).value)
  {
    var l := lines[idx];
    match Classify(l)
    case FileStart => FileStartKeepsInv(lines, idx, st);
    case Body =>
      if st.inHunk && IsSourceLine(l) {
        ContentKeepsInv(lines, idx, st, LineModeOf(l).value);
      } else {
        StepSkippedLine(lines, idx, st);
        SkipKeepsInv(st);
      }
    case HunkStart =>
      ClassifyByPrefix(l);
      HunkStartKeepsInv(lines, idx, st, MatchHunkHeader(l).value);
    case OrigNameLine(_) => NameLineKeepsInv(lines, idx, st);
    case NewNameLine(_) => NameLineKeepsInv(lines, idx, st);
    case RenameFrom(_) => NameLineKeepsInv(lines, idx, st);
    case RenameTo(_) => NameLineKeepsInv(lines, idx, st);
    case _ => MarkerLineKeepsInv(lines, idx, st);
  }

  /** A `diff ` line keeps the invariant: the new file has no hunks yet. */
  lemma FileStartKeepsInv(lines: seq<string>, idx: nat, st: State)
    requires idx < |lines| && Inv(st) && HasPrefix(lines[idx], "diff ")
    ensures Step(lines, idx, st).Ok? && Inv(Step(lines, idx, st).value)
  {
    StepDiffLine(lines, idx, st);
    var f := DiffFile(DiffHeaderAt(lines, idx), Modified, "", "", [], 0);
    var st' := State(st.files + [f], st.addedCount, st.removedCount, false, st.position + 1, true);
    assert FileLines(f.hunks) == [];
    assert FileOk(f);
    forall k | 0 <= k < |st'.files| ensures FileOk(st'.files[k]) {
      if k < |st.files| {
        assert st'.files[k] == st.files[k];
      }
    }
    InvIntro(st');
  }

  /** A line that only moves the position on keeps the invariant. */
  lemma SkipKeepsInv(st: State)
    requires Inv(st)
    ensures Inv(st.(position := st.position + 1))
  {
    var st' := st.(position := st.position + 1);
    if |st.files| > 0 {
      var ls := FileLines(Last(st.files).hunks);
      assert PositionsAtMost(ls, st.position);
      assert PositionsAtMost(ls, st'.position);
    }
    InvIntro(st');
  }

  /** A line naming either side keeps the invariant. */
  lemma NameLineKeepsInv(lines: seq<string>, idx: nat, st: State)
    requires idx < |lines| && Inv(st) && Step(lines, idx, st).Ok?
    requires var k := Classify(lines[idx]); k.OrigNameLine? || k.NewNameLine? || k.RenameFrom? || k.RenameTo?
    ensures Inv(Step(lines, idx, st).value)
  {
    var l := lines[idx];
    ClassifyByPrefix(l);
    match Classify(l)
    case OrigNameLine(name) =>
      StepOrigName(lines, idx, st, "--- ");
      FileFieldsKeepInv(st, Last(st.files).(origName := name));
    case NewNameLine(name) =>
      StepNewName(lines, idx, st, "+++ ");
      FileFieldsKeepInv(st, Last(st.files).(newName := name));
    case RenameFrom(name) =>
      StepOrigName(lines, idx, st, RenameFromPrefix);
      FileFieldsKeepInv(st, Last(st.files).(origName := name));
    case RenameTo(name) =>
      StepNewName(lines, idx, st, RenameToPrefix);
      FileFieldsKeepInv(st, Last(st.files).(newName := name));
  }

  /** A `/dev/null`, similarity or binary line keeps the invariant. */
  lemma MarkerLineKeepsInv(lines: seq<string>, idx: nat, st: State)
    requires idx < |lines| && Inv(st) && Step(lines, idx, st).Ok?
    requires var k := Classify(lines[idx]); k.DeletedMarker? || k.NewMarker? || k.Similarity? || k.BinaryLine?
    ensures Inv(Step(lines, idx, st).value)
  {
    var l := lines[idx];
    ClassifyByPrefix(l);
    match Classify(l)
    case DeletedMarker =>
      StepDevNull(lines, idx, st);
      FileFieldsKeepInv(st, Last(st.files).(mode := Deleted));
    case NewMarker =>
      StepDevNull(lines, idx, st);
      FileFieldsKeepInv(st, Last(st.files).(mode := New));
    case Similarity(n) =>
      StepSimilarity(lines, idx, st);
      FileFieldsKeepInv(st, Last(st.files).(mode := Renamed, similarityIndex := SimilarityValue(l)));
    case BinaryLine(names) =>
      StepBinary(lines, idx, st);
      var f := Last(st.files);
      FileFieldsKeepInv(st, f.(mode := Modified, origName := ParseFileName(names[0]), newName := ParseFileName(names[1])));
  }

  lemma {:induction false} StateAfterInv(lines: seq<string>, n: nat)
    requires n <= |lines| && StateAfter(lines, n).Ok?
    ensures Inv(StateAfter(lines, n).value)
  {
    if n > 0 {
      StateAfterInv(lines, n - 1);
      StepKeepsInv(lines, n - 1, StateAfter(lines, n - 1).value);
    }
  }

  /** Every diff `Parse` returns is well formed: in each hunk both sides are
      numbered consecutively from their declared starts, the new side is the
      hunk's Added and Unchanged lines in order, the orig side its Removed and
      Unchanged lines, and in each file the content lines' positions are at
      least 1 and strictly increase. */
  lemma ParseWellFormed(text: string)
    requires Parse(text).Ok?
    ensures forall k | 0 <= k < |Parse(text).value.files| :: FileOk(Parse(text).value.files[k])
  {
    StateAfterInv(Lines(text), |Lines(text)|);
  }

  // ---- which lines become files ----

  /** The indices below `n` of the lines that start `diff `, in order. */
  function FileStarts(lines: seq<string>, n: nat): (r: seq<nat>)
    requires n <= |lines|
    ensures forall k | 0 <= k < |r| :: r[k] < n && HasPrefix(lines[r[k]], "diff ")
  {
    if n == 0 then []
    else if HasPrefix(lines[n - 1], "diff ") then FileStarts(lines, n - 1) + [n - 1]
    else FileStarts(lines, n - 1)
  }

  /** Every index of a `diff ` line below `n` is listed, and the list is
      increasing. */
  lemma {:induction false} FileStartsComplete(lines: seq<string>, n: nat)
    requires n <= |lines|
    ensures forall i | 0 <= i < n && HasPrefix(lines[i], "diff ") :: i in FileStarts(lines, n)
    ensures forall j, k | 0 <= j < k < |FileStarts(lines, n)| :: FileStarts(lines, n)[j] < FileStarts(lines, n)[k]
  {
    if n > 0 {
      FileStartsComplete(lines, n - 1);
    }
  }

  /** After `n` lines there is one file per `diff ` line so far, and each
      file's header is the one read at its `diff ` line. */
  lemma {:induction false} StateAfterFiles(lines: seq<string>, n: nat)
    requires n <= |lines| && StateAfter(lines, n).Ok?
    ensures |StateAfter(lines, n).value.files| == |FileStarts(lines, n)|
    ensures forall k | 0 <= k < |FileStarts(lines, n)| ::
      StateAfter(lines, n).value.files[k].diffHeader == DiffHeaderAt(lines, FileStarts(lines, n)[k])
  {
    if n > 0 {
      var st := StateAfter(lines, n - 1).value;
      StateAfterFiles(lines, n - 1);
      StepFileEntries(lines, n - 1, st);
    }
  }

  /** The diff `Parse` returns has exactly one file per `diff ` line of the
      text, in order, and each file's header starts with that line. */
  lemma ParseFileEntries(text: string)
    requires Parse(text).Ok?
    ensures var fs := FileStarts(Lines(text), |Lines(text)|);
      && |Parse(text).value.files| == |fs|
      && forall k | 0 <= k < |fs| ::
           HasPrefix(Parse(text).value.files[k].diffHeader, Lines(text)[fs[k]])
  {
    var lines := Lines(text);
    StateAfterFiles(lines, |lines|);
  }

  // ---- a text with no `diff ` line ----

  /** The first index below `n` of a line that needs a current file. */
  function FirstHeader(lines: seq<string>, n: nat): (r: Option<nat>)
    requires n <= |lines|
    ensures r.Some? ==>
      && r.value < n && NeedsFile(lines[r.value])
      && forall j | 0 <= j < r.value :: !NeedsFile(lines[j])
    ensures r.None? ==> forall j | 0 <= j < n :: !NeedsFile(lines[j])
  {
    if n == 0 then None
    else
      match FirstHeader(lines, n - 1)
      case Some(i) => Some(i)
      case None => if NeedsFile(lines[n - 1]) then Some(n - 1) else None
  }

  /** Before the first `diff ` line nothing is recorded: the lines only move
      the position counter, and the first header line among them (a name,
      mode, rename, similarity, binary or hunk line) stops the parse, which
      the source does by dereferencing its nil current file. */
  lemma {:induction false} BeforeFirstFile(lines: seq<string>, n: nat)
    requires n <= |lines|
    requires forall i | 0 <= i < n :: !HasPrefix(lines[i], "diff ")
    ensures StateAfter(lines, n) ==
      match FirstHeader(lines, n)
      case None => Ok(State([], 0, 0, false, n, false))
      case Some(i) => Err(NilFile(lines[i]))
  {
    if n > 0 {
      BeforeFirstFile(lines, n - 1);
      if FirstHeader(lines, n - 1).Some? {
        assert StateAfter(lines, n) == StateAfter(lines, n - 1);
      } else {
        var st := State([], 0, 0, false, n - 1, false);
        assert StateAfter(lines, n) == Step(lines, n - 1, st);
        StepWithoutFile(lines, n - 1, st);
      }
    }
  }

  /** A text without any `diff ` line parses to no files when none of its
      lines is a header line, and otherwise fails at the first one. */
  lemma ParseWithoutFiles(text: string)
    requires forall i | 0 <= i < |Lines(text)| :: !HasPrefix(Lines(text)[i], "diff ")
    ensures Parse(text) ==
      match FirstHeader(Lines(text), |Lines(text)|)
      case None => Ok(Diff([]))
      case Some(i) => Err(NilFile(Lines(text)[i]))
  {
    BeforeFirstFile(Lines(text), |Lines(text)|);
  }

  /** Every error names the line that caused it. */
  lemma {:induction false} ErrorNamesLine(lines: seq<string>, n: nat)
    requires n <= |lines| && StateAfter(lines, n).Err?
    ensures exists i | 0 <= i < n :: StateAfter(lines, n).error.line == lines[i]
  {
    if StateAfter(lines, n - 1).Err? {
      ErrorNamesLine(lines, n - 1);
      var i :| 0 <= i < n - 1 && StateAfter(lines, n - 1).error.line == lines[i];
      assert StateAfter(lines, n) == StateAfter(lines, n - 1);
    } else {
      var st := StateAfter(lines, n - 1).value;
      assert StateAfter(lines, n) == Step(lines, n - 1, st);
      StepErrorNamesLine(lines, n - 1, st);
      assert StateAfter(lines, n).error.line == lines[n - 1];
    }
  }

  /** A step that fails names its own line. */
  lemma StepErrorNamesLine(lines: seq<string>, idx: nat, st: State)
    requires idx < |lines| && Coherent(st) && Step(lines, idx, st).Err?
    ensures Step(lines, idx, st).error.line == lines[idx]
  {
    StepErrors(lines, idx, st);
  }
}
