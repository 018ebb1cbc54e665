/** The parse result: a diff is a list of files, a file a list of hunks, a
    hunk three ranges of numbered lines. Also the two read-only queries on it,
    `Length` of a hunk and `Changed` of a diff. */
module DiffModel {

  /** How a file changed. */
  datatype FileMode = Deleted | Modified | New | Renamed

  /** How a line changed. */
  datatype LineMode = Added | Removed | Unchanged

  /** One content line of a hunk: `number` is its line number in the file
      version of the range holding it, `position` its line offset in the diff
      counted from the file's first hunk header. */
  datatype DiffLine = DiffLine(mode: LineMode, number: int, content: string, position: int)

  /** `start` and `length` come from the hunk header; the whole range keeps
      both at zero. */
  datatype DiffRange = DiffRange(start: int, length: int, lines: seq<DiffLine>)

  datatype DiffHunk = DiffHunk(
    hunkHeader: string,
    origRange: DiffRange,
    newRange: DiffRange,
    wholeRange: DiffRange)

  datatype DiffFile = DiffFile(
    diffHeader: string,
    mode: FileMode,
    origName: string,
    newName: string,
    hunks: seq<DiffHunk>,
    similarityIndex: int)

  datatype Diff = Diff(files: seq<DiffFile>)

  /** The lines of `s` that satisfy `p`, in order. */
  function Filter<T>(s: seq<T>, p: T -> bool): (r: seq<T>)
    ensures |r| <= |s|
    ensures forall x | x in r :: x in s && p(x)
  {
    if |s| == 0 then []
    else Filter(s[..|s| - 1], p) + (if p(s[|s| - 1]) then [s[|s| - 1]] else [])
  }

  lemma FilterAppend<T>(s: seq<T>, x: T, p: T -> bool)
    ensures Filter(s + [x], p) == Filter(s, p) + (if p(x) then [x] else [])
  {
    assert (s + [x])[..|s|] == s;
  }

  predicate IsNewSide(l: DiffLine) { l.mode != Removed }
  predicate IsOrigSide(l: DiffLine) { l.mode != Added }
  predicate IsRemoved(l: DiffLine) { l.mode == Removed }
  predicate IsAdded(l: DiffLine) { l.mode == Added }

  /** A line with its side-specific number erased: what the orig and new
      copies of an unchanged line have in common. */
  function Unnumbered(lines: seq<DiffLine>): (r: seq<DiffLine>)
    ensures |r| == |lines|
    ensures forall k | 0 <= k < |r| :: r[k] == lines[k].(number := 0)
  {
    if |lines| == 0 then [] else Unnumbered(lines[..|lines| - 1]) + [lines[|lines| - 1].(number := 0)]
  }

  /** `(*DiffHunk).Length`: the hunk's displayed line count. */
  function Length(h: DiffHunk): int {
    |h.wholeRange.lines| + 1
  }

  /** The numbers of the Added lines of the new ranges of `hunks`, in hunk and
      line order. */
  function AddedNumbers(hunks: seq<DiffHunk>): seq<int>
  {
    if |hunks| == 0 then []
    else
      AddedNumbers(hunks[..|hunks| - 1])
      + Numbers(Filter(hunks[|hunks| - 1].newRange.lines, IsAdded))
  }

  function Numbers(lines: seq<DiffLine>): (r: seq<int>)
    ensures |r| == |lines|
    ensures forall k | 0 <= k < |r| :: r[k] == lines[k].number
  {
    if |lines| == 0 then [] else Numbers(lines[..|lines| - 1]) + [lines[|lines| - 1].number]
  }

  /** Reference for `Changed`: every number `Changed` should list under the
      name `name`, file by file, skipping deleted files. */
  function ChangedUnder(files: seq<DiffFile>, name: string): seq<int>
  {
    if |files| == 0 then []
    else
      var f := files[|files| - 1];
      ChangedUnder(files[..|files| - 1], name)
      + (if f.mode != Deleted && f.newName == name then AddedNumbers(f.hunks) else [])
  }

  /** One iteration of the outer loop of `Changed`: a deleted file is skipped,
      otherwise its added numbers are appended under its new name, the key
      being created by the first append only. */
  function AccumulateFile(m: map<string, seq<int>>, f: DiffFile): map<string, seq<int>>
  {
    var nums := AddedNumbers(f.hunks);
    if f.mode == Deleted || |nums| == 0 then m
    else m[f.newName := (if f.newName in m then m[f.newName] else []) + nums]
  }

  /** `(*Diff).Changed`: a map from new file name to the numbers of the lines
      added in that file. A name is a key exactly when some non-deleted file of
      that name has an added line, and its value lists those lines' numbers
      in file, hunk and line order. */
  function Changed(files: seq<DiffFile>): (m: map<string, seq<int>>)
    ensures forall name :: name in m <==> |ChangedUnder(files, name)| > 0
    ensures forall name | name in m :: m[name] == ChangedUnder(files, name)
  {
    if |files| == 0 then map[]
    else AccumulateFile(Changed(files[..|files| - 1]), files[|files| - 1])
  }

  /** Deleted files contribute nothing to `Changed`. */
  lemma ChangedIgnoresDeleted(files: seq<DiffFile>, f: DiffFile)
    requires f.mode == Deleted
    ensures Changed(files + [f]) == Changed(files)
  {
    assert (files + [f])[..|files|] == files;
  }

  /** Every number listed by `Changed` is the number of an Added line in the
      new range of some hunk of a non-deleted file carrying that name. */
  lemma {:induction false} ChangedSound(files: seq<DiffFile>, name: string, n: int)
    requires name in Changed(files) && n in Changed(files)[name]
    ensures exists i, j, k ::
      0 <= i < |files| && 0 <= j < |files[i].hunks| && 0 <= k < |files[i].hunks[j].newRange.lines|
      && files[i].mode != Deleted && files[i].newName == name
      && files[i].hunks[j].newRange.lines[k].mode == Added
      && files[i].hunks[j].newRange.lines[k].number == n
  {
    var i, j, k := FindInChangedUnder(files, name, n);
  }

  lemma {:induction false} FindInChangedUnder(files: seq<DiffFile>, name: string, n: int)
    returns (i: nat, j: nat, k: nat)
    requires n in ChangedUnder(files, name)
    ensures i < |files| && j < |files[i].hunks| && k < |files[i].hunks[j].newRange.lines|
    ensures files[i].mode != Deleted && files[i].newName == name
    ensures files[i].hunks[j].newRange.lines[k].mode == Added
    ensures files[i].hunks[j].newRange.lines[k].number == n
    decreases |files|
  {
    var last := |files| - 1;
    var f := files[last];
    if n in ChangedUnder(files[..last], name) {
      i, j, k := FindInChangedUnder(files[..last], name, n);
    } else {
      i := last;
      j, k := FindInAddedNumbers(f.hunks, n);
    }
  }

  lemma {:induction false} FindInAddedNumbers(hunks: seq<DiffHunk>, n: int)
    returns (j: nat, k: nat)
    requires n in AddedNumbers(hunks)
    ensures j < |hunks| && k < |hunks[j].newRange.lines|
    ensures hunks[j].newRange.lines[k].mode == Added && hunks[j].newRange.lines[k].number == n
    decreases |hunks|
  {
    var last := |hunks| - 1;
    if n in AddedNumbers(hunks[..last]) {
      j, k := FindInAddedNumbers(hunks[..last], n);
    } else {
      j := last;
      var added := Filter(hunks[last].newRange.lines, IsAdded);
      var t :| 0 <= t < |added| && Numbers(added)[t] == n;
      assert added[t] in hunks[last].newRange.lines;
      k :| 0 <= k < |hunks[last].newRange.lines| && hunks[last].newRange.lines[k] == added[t];
    }
  }
}
