/** Which lines inside a hunk are content, and what kind of content. */
module LineClass {
  import opened Results
  import opened Text
  import opened DiffModel

  /** The marker git writes after a last line that has no newline. */
  const NoNewlineMarker: string := "\\ No newline at end of file"

  /** `isSourceLine`: the sentinel, the empty line and any line starting
      `---` or `+++` are not content. */
  predicate IsSourceLine(line: string) {
    line != NoNewlineMarker
    && |line| != 0
    && !(|line| >= 3 && (line[..3] == "---" || line[..3] == "+++"))
  }

  /** `lineMode`: the first character of a content line says how it changed;
      any other first character is an error. */
  function LineModeOf(line: string): (r: Option<LineMode>)
    requires |line| > 0
    ensures r.Some? <==> line[0] == ' ' || line[0] == '+' || line[0] == '-'
    ensures r == Some(Unchanged) <==> line[0] == ' '
    ensures r == Some(Added) <==> line[0] == '+'
    ensures r == Some(Removed) <==> line[0] == '-'
  {
    match line[0]
    case ' ' => Some(Unchanged)
    case '+' => Some(Added)
    case '-' => Some(Removed)
    case _ => None
  }

  /** The character a diff writes in front of a line of the given mode. */
  function ModeChar(m: LineMode): char {
    match m
    case Unchanged => ' '
    case Added => '+'
    case Removed => '-'
  }

  /** Classifying a written line gives back its mode, and its content is the
      line minus that first character. */
  lemma LineModeOfWritten(m: LineMode, content: string)
    ensures LineModeOf([ModeChar(m)] + content) == Some(m)
    ensures ([ModeChar(m)] + content)[1..] == content
  {
  }

  /** A written line counts as content unless it is a removed line whose text
      starts `--` or an added line whose text starts `++`: those read as
      file-name markers and are dropped. */
  lemma IsSourceLineWritten(m: LineMode, content: string)
    ensures IsSourceLine([ModeChar(m)] + content) <==>
      !(m == Removed && HasPrefix(content, "--")) && !(m == Added && HasPrefix(content, "++"))
  {
    var line := [ModeChar(m)] + content;
    assert line[0] != '\\';
    assert NoNewlineMarker[0] == '\\';
    if |content| >= 2 {
      assert line[..3] == [ModeChar(m), content[0], content[1]];
      assert HasPrefix(content, "--") <==> content[0] == '-' && content[1] == '-';
      assert HasPrefix(content, "++") <==> content[0] == '+' && content[1] == '+';
    }
  }
}
