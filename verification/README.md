# diffparser in Dafny

A model of the core of `diffparser`, a Go package that reads the unified diff
text `git diff` prints and turns it into a tree: a `Diff` holds `DiffFile`s, a
file holds `DiffHunk`s, and a hunk holds three `DiffRange`s of numbered
`DiffLine`s. The orig range holds the removed and unchanged lines, numbered in
the old file. The new range holds the added and unchanged lines, numbered in
the new file. The whole range holds every line in diff order.

The model covers these parts of the package:

- `Parse`, modelled as a left fold of one step function over the lines of the
  text.
- The helpers `Parse` calls: `lineMode`, `isSourceLine`, `parseFileName` and
  `decodeOctalString`.
- The hunk-header regular expression, written as a greedy scan tried at every
  start.
- The two queries on the result, `(*DiffHunk).Length` and `(*Diff).Changed`.

Modules:

- `Results`: `Option` and `Result`.
- `Text`: `strings.HasPrefix`, `TrimPrefix`, `TrimSuffix`, `Index` and `Split`, and `strconv.Atoi`.
- `DiffModel`: the data types, `Length` and `Changed`.
- `FileNames`: `decodeOctalString` and `parseFileName`, with a git-style quoting function as their inverse.
- `LineClass`: `isSourceLine` and `lineMode`.
- `HunkHeader`: the `@@ -A,B +C,D @@ context` matcher and its inverse.
- `RangeBuilder`: how a content line is added to the three ranges, and the well-formedness of a hunk.
- `Parser`: the line classification, the step function, the fold and `Parse`.
- `StepFacts`: one lemma per kind of line, stating what a step does with it.
- `ParseInvariants`: what holds of every state the fold reaches, and so of every parsed diff.
- `Scenarios`: a file section folded line by line at any place in a diff.

Strings are sequences of `char`, one `char` per byte of the Go string.
Integers are unbounded.

## Model

| member | source | states |
|---|---|---|
| Parser.StateAfter | diffparser.go:183-327 | The loop over the lines, as a fold; every state it reaches has an open hunk only inside a current file with a current hunk. |
| Parser.Step | diffparser.go:184-326 | One loop iteration keeps that coherence: content is only ever added to an existing hunk. |
| Parser.HeaderStep | diffparser.go:209-289 | The header cases of the `switch` keep that coherence too. |
| Parser.ClassifyByPrefix | diffparser.go:185-233 | Each case of the `switch` is taken exactly when the line has that case's prefix; only the two `/dev/null` lines need the case order. |
| Parser.DiffHeaderAt | diffparser.go:189-191 | A file's header always begins with its `diff ` line. |
| Parser.DiffHeaderJoin | diffparser.go:189-203 | The header is its header lines joined by newlines: the `diff ` line; then, only when three lines follow, the next line if it matches `^index .+$` and the two after it if both match `^(-|\+){3} .+$`. |
| Parser.DiffHeaderLines | diffparser.go:189-203 | Splitting the header at newlines gives exactly those header lines back, so no other line joins it and none is lost. |
| Parser.ReplaceLast | diffparser.go:204 | Replacing the current file changes the last file and nothing else. |
| StepFacts.StepDiffLine | diffparser.go:186-208 | A `diff ` line appends one Modified file with no names and no hunks, and closes any open hunk. |
| StepFacts.StepFileEntries | diffparser.go:186-208 | Only a `diff ` line adds a file, other lines never change a file's header or any file before the current one, and only `@@ ` opens a hunk. |
| StepFacts.StepPosition | diffparser.go:184-237 | The position counts every line, and drops to 0 at the first hunk header after a `diff ` line. |
| StepFacts.StepErrors | diffparser.go:224-294 | The four ways a parse stops, each as an if-and-only-if: a header line before any file, an unmatched hunk header, a binary line that does not cut into two names, and a content line with an unknown first character. Each error carries its line. |
| StepFacts.StepWithoutFile | diffparser.go:209-233 | Before any `diff ` line, a header line stops the parse and any other line only moves the position. |
| StepFacts.StepHeaderLine | diffparser.go:209-289 | Once there is a file, header lines go to the header cases, on the state whose position has moved on. |
| StepFacts.StepHunkHeader | diffparser.go:233-289 | A matched hunk header appends an empty hunk with the declared ranges and context, and sets each counter to its side's start. |
| StepFacts.StepHunkState | diffparser.go:233-289 | The complete state after a hunk header. |
| StepFacts.StepSkippedLine | diffparser.go:290-294 | A line that is no header and no content of an open hunk only moves the position. |
| StepFacts.StepContentLine | diffparser.go:290-325 | A content line joins the current hunk as one line with its mode, its text without the first character and its position, and moves the counters. |
| StepFacts.StepContentState | diffparser.go:290-325 | The complete state after a content line. |
| StepFacts.WrittenContentLine | diffparser.go:290-297 | A line written with a mode character is content exactly when `isSourceLine` accepts it, and reads back as that mode. |
| StepFacts.StepDevNull | diffparser.go:209-212 | `+++ /dev/null` marks the file Deleted and `--- /dev/null` marks it New. |
| StepFacts.StepSimilarity | diffparser.go:213-215 | A similarity line marks the file Renamed and records the index. |
| StepFacts.StepOrigName | diffparser.go:216-221 | `--- ` and `rename from ` lines set the orig name through `parseFileName`. |
| StepFacts.StepNewName | diffparser.go:218-223 | `+++ ` and `rename to ` lines set the new name through `parseFileName`. |
| StepFacts.StepBinary | diffparser.go:224-232 | A binary line that cuts into two names sets both names and the Modified mode. |
| ParseInvariants.ParseWellFormed | diffparser.go:168-330 | In every parsed diff, each side of a hunk is numbered consecutively from its declared start. The new side is the added and unchanged lines, in order; the orig side is the removed and unchanged lines. A file's content positions are at least 1 and strictly increase. |
| ParseInvariants.StateAfterInv | diffparser.go:183-327 | The invariant holds after every prefix of the lines. |
| ParseInvariants.StepKeepsInv | diffparser.go:184-326 | Every kind of line keeps the invariant. |
| ParseInvariants.ContentKeepsInv | diffparser.go:290-325 | A content line keeps it. |
| ParseInvariants.AddContentKeepsInv | diffparser.go:295-325 | Appending a line to the open hunk one position on keeps it. |
| ParseInvariants.AddContentShape | diffparser.go:300-325 | Adding content replaces only the last hunk of the last file. |
| ParseInvariants.GrownFileOk | diffparser.go:295-325 | A file whose last hunk gains a line at a later position stays well formed, and its counters stay one past each side's last number. |
| ParseInvariants.ContentKeepsFileOk | diffparser.go:295-325 | The same at the level of a file's hunks. |
| ParseInvariants.HunkStartKeepsInv | diffparser.go:233-289 | A hunk header keeps the invariant. |
| ParseInvariants.NewHunkKeepsInv | diffparser.go:238-289 | Appending an empty, well-formed hunk whose counters agree keeps it. |
| ParseInvariants.FileStartKeepsInv | diffparser.go:186-208 | A `diff ` line keeps it. |
| ParseInvariants.SkipKeepsInv | diffparser.go:184 | A line that only moves the position keeps it. |
| ParseInvariants.NameLineKeepsInv | diffparser.go:216-223 | Name lines keep it. |
| ParseInvariants.MarkerLineKeepsInv | diffparser.go:209-232 | `/dev/null`, similarity and binary lines keep it. |
| ParseInvariants.FileFieldsKeepInv | diffparser.go:209-232 | Changing only a file's mode, names or similarity keeps it. |
| ParseInvariants.FilesReplaceLast | diffparser.go:204 | Replacing the last file by a well-formed one keeps every file well formed. |
| ParseInvariants.HunksAppend | diffparser.go:242 | Appending a well-formed hunk keeps every hunk well formed. |
| ParseInvariants.HunksReplaceLast | diffparser.go:303-324 | Replacing the last hunk by a well-formed one keeps every hunk well formed. |
| ParseInvariants.FileLinesAppend | diffparser.go:242 | A file's content lines are those of its hunks in order. |
| ParseInvariants.FileLinesGrowLast | diffparser.go:304-324 | A line added to the last hunk's whole range is added at the end of the file's lines. |
| ParseInvariants.PositionsExtend | diffparser.go:295-298 | A line one position past every earlier one keeps the positions increasing. |
| ParseInvariants.FileStarts | diffparser.go:186 | Lists the `diff ` lines. |
| ParseInvariants.FileStartsComplete | diffparser.go:186 | The list holds every `diff ` line, in increasing order. |
| ParseInvariants.StateAfterFiles | diffparser.go:186-204 | After any prefix of the lines there is one file per `diff ` line, in order, each with the header read at that line. |
| ParseInvariants.ParseFileEntries | diffparser.go:186-204 | A parsed diff has exactly one file per `diff ` line, each header beginning with that line. |
| ParseInvariants.FirstHeader | diffparser.go:209-233 | Finds the first line that needs a current file. |
| ParseInvariants.BeforeFirstFile | diffparser.go:183-233 | Before the first `diff ` line nothing is recorded, and the first header line among those lines stops the parse. |
| ParseInvariants.ParseWithoutFiles | diffparser.go:168-183 | A text without `diff ` lines parses to an empty diff, unless a header line makes it fail. |
| ParseInvariants.ErrorNamesLine | diffparser.go:224-294 | Every parse error names a line of the input. |
| Scenarios.GitFileHeader | diffparser.go:186-219 | The header git writes, `diff `, an index line, `--- a/n` and `+++ b/n`, in front of a hunk header, appends one Modified file named `n` on both sides whose header is all four lines, wherever they stand. |
| Scenarios.DiffThenIndex | diffparser.go:186-208 | A `diff ` line and an index line open a file and move the position on by two. |
| Scenarios.NamePair | diffparser.go:216-219 | `--- a/n` then `+++ b/n` name both sides of the current file `n`. |
| Scenarios.IndexLineIsBody | diffparser.go:185-233 | An index line falls to no case of the `switch`. |
| Scenarios.NameLinesAreMarkers | diffparser.go:162 | `--- a/n` and `+++ b/n` match `^(-|\+){3} .+$` when `n` holds no newline. |
| Scenarios.FullHeader | diffparser.go:191-203 | With an index line and two marker lines after it, all four lines make up the header. |
| Scenarios.FileHeaderLines | diffparser.go:186-219 | `diff `, `--- a/n` and `+++ b/n`, in front of a hunk header, append one Modified file named `n` on both sides, wherever they stand. |
| Scenarios.OrigNameStep | diffparser.go:332-335 | `--- a/n` sets the orig name to `n`. |
| Scenarios.NewNameStep | diffparser.go:332-338 | `+++ b/n` sets the new name to `n`. |
| Scenarios.FoldHunkHeader | diffparser.go:233-289 | A hunk header, at any place in the fold, opens an empty hunk. |
| Scenarios.ContentStep | diffparser.go:290-325 | A content line, at any place in the fold, joins the only hunk of the last file and moves the counters and position. |
| Scenarios.ExampleHunk | diffparser_test.go:73-138 | The first hunk of the package's example diff, `@@ -1,4 +1,4 @@` with `+add a line`, ` some`, ` lines`, `-in`, ` file1`, gives the orig and new ranges the package's test expects: numbers 1 to 4 on each side, at positions 2, 3, 4, 5 and 1, 2, 3, 5. |
| Scenarios.SwallowedRemovedLine | diffparser.go:216-217 | Inside a hunk, a removed line whose text starts `-- ` is read as an orig-name line: it sets the file's orig name and leaves the hunk and both counters unchanged. |
| Scenarios.SwallowedAddedLine | diffparser.go:218-219 | Inside a hunk, an added line whose text starts `++ ` is read as a new-name line: it sets the file's new name and leaves the hunk and both counters unchanged. |
| Scenarios.ThreeLineHunk | diffparser.go:304-325 | An unchanged, a removed and an added line give the expected three ranges and numbers. |
| Scenarios.WrittenIsContent | diffparser.go:352-360 | A written line that does not look like a `---`/`+++` marker is content of its mode. |
| LineClass.LineModeOf | diffparser.go:138-149 | ` `, `+` and `-` give Unchanged, Added and Removed, each an if-and-only-if; any other first character is the error. |
| LineClass.LineModeOfWritten | diffparser.go:138-149 | Reading back a written line gives its mode and its text. |
| LineClass.IsSourceLineWritten | diffparser.go:352-360 | A written line is content unless it is a removed line whose text starts `--` or an added line whose text starts `++`. |
| HunkHeader.FindFrom | diffparser.go:163 | The leftmost match: a match found is a match at some start with no match at any earlier start, and no match means no start matches. |
| HunkHeader.MatchFormatted | diffparser.go:245-273 | Matching a written header gives back its fields, an omitted count reading as the start. |
| HunkHeader.OmittedCountsDefaultToStart | diffparser.go:249-270 | With both counts omitted, the lengths equal the starts. |
| HunkHeader.OptionalCountOf | diffparser.go:163 | `,?(\d+)?` reads back a written count, or none. |
| HunkHeader.MatchContextOf | diffparser.go:271-273 | ` @@ ?(.+)?` reads back the context. |
| HunkHeader.MatchNewOf | diffparser.go:260-270 | The new-side group reads back its start. |
| HunkHeader.MatchOrigOf | diffparser.go:249-259 | The orig-side group reads back its start. |
| RangeBuilder.EmptyHunk | diffparser.go:276-289 | A new hunk is well formed and its counters agree with its starts. |
| RangeBuilder.AddLineKeepsHunkOk | diffparser.go:290-325 | Adding a line keeps the hunk well formed, moves the counters of the sides that received it, and adds it to the whole range. |
| RangeBuilder.AddAddedLine | diffparser.go:305-309 | An added line goes to the new and whole ranges, numbered by the added counter. |
| RangeBuilder.AddRemovedLine | diffparser.go:311-315 | A removed line goes to the orig and whole ranges, numbered by the removed counter. |
| RangeBuilder.AddUnchangedLine | diffparser.go:317-324 | An unchanged line goes to all three ranges: numbered by the added counter in new and whole, by the removed counter in orig. |
| RangeBuilder.LengthCountsLines | diffparser.go:92-95 | `Length` is the new side's lines plus the removed lines, plus one. |
| RangeBuilder.FilterSplit | diffparser.go:92-95 | Every whole-range line is on the new side or is removed, never both. |
| RangeBuilder.SidesExcludeOtherMode | diffparser.go:304-325 | The new range holds no removed line, and the orig range no added line. |
| DiffModel.Changed | diffparser.go:116-136 | A name is a key exactly when a file of that name that is not deleted has an added line. Its value is those lines' numbers, in file, hunk and line order. |
| DiffModel.ChangedIgnoresDeleted | diffparser.go:122-124 | A deleted file changes nothing in the result. |
| DiffModel.ChangedSound | diffparser.go:126-130 | Every listed number is the number of an added line in a new range of a file of that name that is not deleted. |
| DiffModel.FindInChangedUnder | diffparser.go:121-133 | Locates that line. |
| DiffModel.FindInAddedNumbers | diffparser.go:126-131 | The same within one file. |
| FileNames.DecodeOctalString | diffparser.go:362-368 | The unquoted text when unquoting succeeds, the input itself otherwise. |
| FileNames.UnescapeEscape | diffparser.go:362-368 | Unquoting undoes git-style quoting for every byte string. |
| FileNames.UnescapeEscapeChar | diffparser.go:363 | The same for one quoted byte followed by any text. |
| FileNames.UnescapeLetterEscape | diffparser.go:363 | The same for a two-character escape. |
| FileNames.UnescapeOctalEscape | diffparser.go:363 | The same for a three-digit octal escape. |
| FileNames.ParseFileNamePrefixed | diffparser.go:333-338 | `a/name` and `b/name` give `name`. |
| FileNames.ParseFileNameVerbatim | diffparser.go:349 | A token without prefix or quote comes back unchanged. |
| FileNames.ParseFileNameQuoted | diffparser.go:339-346 | A quoted `a/` or `b/` token is decoded after its quotes and prefix are removed. |
| FileNames.QuotedRoundTrip | diffparser.go:339-347 | A name git quoted is recovered exactly. |
| FileNames.QuotedFallback | diffparser.go:339-347 | A quoted name that does not unquote comes back with only its quotes and prefix removed. |
| Text.Split | diffparser.go:171 | No piece contains the separator, and there is at least one piece. |
| Text.JoinSplit | diffparser.go:171 | Joining the lines again gives back the text: nothing is lost. |
| Text.SplitJoin | diffparser.go:171 | Splitting pieces joined by a character they lack gives back the pieces. |
| Text.NoSeparator | diffparser.go:171 | A text without the separator is one piece. |
| Text.FirstSeparator | diffparser.go:171 | The separator after a piece without it is its first occurrence. |
| Text.IndexFrom | diffparser.go:171 | Finds the first occurrence of the separator at or after a start. |
| Text.IndexOf | diffparser.go:171 | Finds the first occurrence of the separator. |
| Text.TrimPrefix | diffparser.go:215-226 | Removes a present prefix and nothing else. |
| Text.TrimSuffix | diffparser.go:338-347 | Removes a present suffix and nothing else. |
| Text.AtoiSomeIff | diffparser.go:249-270 | `Atoi` succeeds exactly on a non-empty digit string with an optional sign. |
| Text.AtoiNatToString | diffparser.go:249-270 | `Atoi` reads back a written number, with either sign. |
| Text.NatToString | diffparser.go:249-270 | Writes digits that read back as the number. |
| Text.DigitRun | diffparser.go:163 | `\d+` is greedy: the run is all digits and stops at a non-digit. |
| Text.DigitRunOf | diffparser.go:163 | The run of a digit string followed by a non-digit is that string. |

## Left out

- I/O: `Parse` takes a string and returns a value, so there is no I/O to model.
- The `Raw` and `PullID` fields of `Diff` and their `sql` tags are not modelled: `Parse` copies the input into `Raw` and never reads it.
- The deprecated constants are not modelled. `DELETED`, `MODIFIED`, `NEW`, `ADDED`, `REMOVED` and `UNCHANGED` are aliases of the modes.
- Shared `*DiffFile` and `*DiffHunk` references are not modelled. The current file and hunk are always the last ones appended, so the model keeps the tree as immutable values and replaces the last file and the last hunk.
- The nil dereference panic is an error value, `NilFile`. In the source, a header line before any `diff ` line dereferences a nil file.
- Parser.Step: the hunk is appended before the header is matched, so a failed match has already appended it. The model appends only after a successful match. This is unobservable, because the error path returns no diff.
- The regular expressions `^index .+$` and `^(-|\+){3} .+$` are modelled as predicates, and the hunk-header expression as a greedy scan. No general regular-expression engine is modelled.
- Text.Atoi: the 64-bit range check of `strconv.Atoi` is left out. Integers are unbounded, so a number that overflows is read as its value instead of failing.
- FileNames.DecodeOctalString: only the escapes git writes are modelled. These are `\"`, `\\`, `\a`, `\b`, `\f`, `\n`, `\r`, `\t`, `\v` and three-digit octal up to 255. `\x`, `\u` and `\U` are treated as failures, where `strconv.Unquote` accepts them. `\'` is a failure in both, since the quote is `"`.
- FileNames.DecodeOctalString: UTF-8 validation and rune decoding are not modelled. Every byte that is not an escape passes through as itself.
- The `diff ` header look-ahead and the hunk-header match are modelled on lines that never contain a newline, which `strings.Split` guarantees.
- Some behaviour differs from the usual unified-diff conventions. The model follows the code:
  - An omitted count in a hunk header defaults to the range's start, where the unified-diff convention reads it as 1 (`b := a`, `d := c`).
  - `rename from` and `rename to` lines set names but not the Renamed mode; only a similarity line does.
  - A `Binary files` line naming `/dev/null` still marks the file Modified.
  - An open hunk is closed only by the next `diff ` line.
  - Positions count every line after the first hunk header, header lines included.
  - The header cases come before the content case, so they also apply inside a hunk. A removed line whose text starts `-- ` is written `--- …` and overwrites the file's orig name through `parseFileName`. An added line whose text starts `++ ` overwrites the new name the same way. A removed `-- /dev/null` or an added `++ /dev/null` sets the mode to New or Deleted. Such a line joins no range and moves no counter, so later lines on that side get numbers one too low (SwallowedRemovedLine, SwallowedAddedLine, StepDevNull). A removed line starting `--` or an added line starting `++` with no space after is simply skipped by `isSourceLine`.
- Scenarios: no lemma folds a whole file section with content lines in one statement. The section is covered by chained lemmas instead: GitFileHeader or FileHeaderLines, then FoldHunkHeader and ContentStep, each fold one part at any place in the diff. ThreeLineHunk and ExampleHunk give the ranges that the added lines build, without going through the fold.
