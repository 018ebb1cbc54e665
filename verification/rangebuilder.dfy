/** The range/line builder: how one classified content line is added to the
    current hunk, and the invariant that keeps the hunk's three ranges
    consistent with each other and with the two running line counters. */
module RangeBuilder {
  import opened DiffModel

  /** The k-th line of `lines` carries number `start + k`. */
  predicate NumberedFrom(lines: seq<DiffLine>, start: int) {
    forall k | 0 <= k < |lines| :: lines[k].number == start + k
  }

  /** What the builder keeps true of every hunk:
      - each side is numbered consecutively from its declared start;
      - the new range is exactly the whole range's Added and Unchanged lines;
      - the orig range holds the whole range's Removed lines themselves and,
        up to the line number, exactly its Removed and Unchanged lines;
      - the whole range keeps start and length zero. */
  predicate HunkOk(h: DiffHunk) {
    && NumberedFrom(h.newRange.lines, h.newRange.start)
    && NumberedFrom(h.origRange.lines, h.origRange.start)
    && h.newRange.lines == Filter(h.wholeRange.lines, IsNewSide)
    && Filter(h.origRange.lines, IsRemoved) == Filter(h.wholeRange.lines, IsRemoved)
    && Unnumbered(h.origRange.lines) == Unnumbered(Filter(h.wholeRange.lines, IsOrigSide))
    && h.wholeRange.start == 0 && h.wholeRange.length == 0
  }

  /** The running counters point one past the last number of each side. */
  predicate CountersAgree(h: DiffHunk, added: int, removed: int) {
    added == h.newRange.start + |h.newRange.lines| && removed == h.origRange.start + |h.origRange.lines|
  }

  /** A hunk as the header opens it: declared ranges, no lines. */
  function EmptyHunk(context: string, origStart: int, origLength: int, newStart: int, newLength: int): (h: DiffHunk)
    ensures HunkOk(h) && CountersAgree(h, newStart, origStart)
  {
    DiffHunk(context, DiffRange(origStart, origLength, []), DiffRange(newStart, newLength, []), DiffRange(0, 0, []))
  }

  /** The line as it enters the whole range: an Added or Unchanged line
      carries its new-side number, a Removed line its orig-side number. */
  function WholeLine(m: LineMode, content: string, pos: int, added: int, removed: int): DiffLine {
    DiffLine(m, if m == Removed then removed else added, content, pos)
  }

  /** Appends one content line. An Added line goes to the new and whole
      ranges, a Removed line to the orig and whole ranges, and an Unchanged
      line to all three, its orig copy carrying the orig-side number. */
  function AddLine(h: DiffHunk, m: LineMode, content: string, pos: int, added: int, removed: int): DiffHunk
  {
    var newLine := DiffLine(m, added, content, pos);
    var origLine := DiffLine(m, removed, content, pos);
    match m
    case Added =>
      h.(newRange := h.newRange.(lines := h.newRange.lines + [newLine]),
         wholeRange := h.wholeRange.(lines := h.wholeRange.lines + [newLine]))
    case Removed =>
      h.(origRange := h.origRange.(lines := h.origRange.lines + [origLine]),
         wholeRange := h.wholeRange.(lines := h.wholeRange.lines + [origLine]))
    case Unchanged =>
      h.(newRange := h.newRange.(lines := h.newRange.lines + [newLine]),
         wholeRange := h.wholeRange.(lines := h.wholeRange.lines + [newLine]),
         origRange := h.origRange.(lines := h.origRange.lines + [origLine]))
  }

  /** The counters after a line of mode `m`: each side's counter moves
      exactly when that side received a line. */
  function NextAdded(m: LineMode, added: int): int {
    if m == Removed then added else added + 1
  }

  function NextRemoved(m: LineMode, removed: int): int {
    if m == Added then removed else removed + 1
  }

  lemma UnnumberedAppend(s: seq<DiffLine>, x: DiffLine)
    ensures Unnumbered(s + [x]) == Unnumbered(s) + [x.(number := 0)]
  {
  }

  lemma NumberedAppend(s: seq<DiffLine>, start: int, x: DiffLine)
    requires NumberedFrom(s, start) && x.number == start + |s|
    ensures NumberedFrom(s + [x], start)
  {
  }

  /** Adding a line keeps the hunk invariant, keeps the counters in step,
      appends exactly one line to the whole range, and leaves the header
      fields alone. */
  lemma AddLineKeepsHunkOk(
    h: DiffHunk, m: LineMode, content: string, pos: int, added: int, removed: int)
    requires HunkOk(h) && CountersAgree(h, added, removed)
    ensures HunkOk(AddLine(h, m, content, pos, added, removed))
    ensures CountersAgree(AddLine(h, m, content, pos, added, removed), NextAdded(m, added), NextRemoved(m, removed))
    ensures AddLine(h, m, content, pos, added, removed).wholeRange.lines
      == h.wholeRange.lines + [WholeLine(m, content, pos, added, removed)]
    ensures AddLine(h, m, content, pos, added, removed).hunkHeader == h.hunkHeader
  {
    match m
    case Added => AddAddedLine(h, content, pos, added, removed);
    case Removed => AddRemovedLine(h, content, pos, added, removed);
    case Unchanged => AddUnchangedLine(h, content, pos, added, removed);
  }

  lemma AddAddedLine(h: DiffHunk, content: string, pos: int, added: int, removed: int)
    requires HunkOk(h) && CountersAgree(h, added, removed)
    ensures HunkOk(AddLine(h, Added, content, pos, added, removed))
    ensures CountersAgree(AddLine(h, Added, content, pos, added, removed), added + 1, removed)
  {
    var x := DiffLine(Added, added, content, pos);
    var w := h.wholeRange.lines;
    FilterAppend(w, x, IsNewSide);
    FilterAppend(w, x, IsRemoved);
    FilterAppend(w, x, IsOrigSide);
    NumberedAppend(h.newRange.lines, h.newRange.start, x);
  }

  lemma AddRemovedLine(h: DiffHunk, content: string, pos: int, added: int, removed: int)
    requires HunkOk(h) && CountersAgree(h, added, removed)
    ensures HunkOk(AddLine(h, Removed, content, pos, added, removed))
    ensures CountersAgree(AddLine(h, Removed, content, pos, added, removed), added, removed + 1)
  {
    var x := DiffLine(Removed, removed, content, pos);
    var w := h.wholeRange.lines;
    var o := h.origRange.lines;
    FilterAppend(w, x, IsNewSide);
    FilterAppend(w, x, IsRemoved);
    FilterAppend(o, x, IsRemoved);
    FilterAppend(w, x, IsOrigSide);
    UnnumberedAppend(o, x);
    UnnumberedAppend(Filter(w, IsOrigSide), x);
    NumberedAppend(o, h.origRange.start, x);
  }

  lemma AddUnchangedLine(h: DiffHunk, content: string, pos: int, added: int, removed: int)
    requires HunkOk(h) && CountersAgree(h, added, removed)
    ensures HunkOk(AddLine(h, Unchanged, content, pos, added, removed))
    ensures CountersAgree(AddLine(h, Unchanged, content, pos, added, removed), added + 1, removed + 1)
  {
    var nx := DiffLine(Unchanged, added, content, pos);
    var ox := DiffLine(Unchanged, removed, content, pos);
    var w := h.wholeRange.lines;
    var o := h.origRange.lines;
    FilterAppend(w, nx, IsNewSide);
    FilterAppend(w, nx, IsRemoved);
    FilterAppend(o, ox, IsRemoved);
    FilterAppend(w, nx, IsOrigSide);
    UnnumberedAppend(o, ox);
    UnnumberedAppend(Filter(w, IsOrigSide), nx);
    NumberedAppend(o, h.origRange.start, ox);
    NumberedAppend(h.newRange.lines, h.newRange.start, nx);
  }

  /** `Length` is one more than the number of content lines: the new range's
      lines plus the orig range's Removed lines. */
  lemma LengthCountsLines(h: DiffHunk)
    requires HunkOk(h)
    ensures Length(h) == |h.newRange.lines| + |Filter(h.origRange.lines, IsRemoved)| + 1
  {
    FilterSplit(h.wholeRange.lines);
  }

  /** Every line is on the new side or is Removed, never both. */
  lemma {:induction false} FilterSplit(s: seq<DiffLine>)
    ensures |s| == |Filter(s, IsNewSide)| + |Filter(s, IsRemoved)|
  {
    if |s| > 0 {
      FilterSplit(s[..|s| - 1]);
    }
  }

  /** The orig range never holds an Added line and the new range never a
      Removed one. */
  lemma SidesExcludeOtherMode(h: DiffHunk)
    requires HunkOk(h)
    ensures forall k | 0 <= k < |h.newRange.lines| :: h.newRange.lines[k].mode != Removed
    ensures forall k | 0 <= k < |h.origRange.lines| :: h.origRange.lines[k].mode != Added
  {
    var o := h.origRange.lines;
    var fo := Filter(h.wholeRange.lines, IsOrigSide);
    forall k | 0 <= k < |o| ensures o[k].mode != Added {
      assert Unnumbered(o)[k] == Unnumbered(fo)[k];
      assert fo[k] in fo;
    }
    forall k | 0 <= k < |h.newRange.lines| ensures h.newRange.lines[k].mode != Removed {
      assert h.newRange.lines[k] in h.newRange.lines;
    }
  }
}
