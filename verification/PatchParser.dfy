/** The patch parser: from patch text to hunks, with the line accounting it relies on. */
module PatchParser {
  import opened Wrappers
  import opened Text
  import opened PatchSyntax

  const BEGIN_PATCH_MARKER := "*** Begin Patch"
  const END_PATCH_MARKER := "*** End Patch"
  const ADD_FILE_MARKER := "*** Add File: "
  const DELETE_FILE_MARKER := "*** Delete File: "
  const UPDATE_FILE_MARKER := "*** Update File: "
  const MOVE_TO_MARKER := "*** Move to: "
  const EOF_MARKER := "*** End of File"
  const CHANGE_CONTEXT_MARKER := "@@ "
  const EMPTY_CHANGE_CONTEXT_MARKER := "@@"

  datatype HunkProblem =
    | NotAHunkHeader(line: string)
    | EmptyUpdateHunk(path: string)
    | NoChunkLines
    | MissingContextMarker(line: string)
    | UnexpectedLine(line: string)

  datatype ParseError =
    | FirstLineNotBegin
    | LastLineNotEnd
    | InvalidHunk(problem: HunkProblem, lineNumber: nat)

  datatype ParseMode = Strict | Lenient

  datatype PatchArgs = PatchArgs(hunks: seq<Hunk>, patch: string)

  // ---------- One chunk ----------

  /** The lines of a chunk after its header, up to the first line that belongs to something else. */
  datatype Diff = Diff(oldLines: seq<string>, newLines: seq<string>, eof: bool, count: nat)

  predicate IsDiffLine(line: string) {
    line == "" || line[0] == ' ' || line[0] == '+' || line[0] == '-'
  }

  function AddDiffLine(line: string, rest: Diff): Diff
    requires IsDiffLine(line)
  {
    if line == "" then Diff([""] + rest.oldLines, [""] + rest.newLines, rest.eof, rest.count + 1)
    else if line[0] == ' ' then
      Diff([line[1..]] + rest.oldLines, [line[1..]] + rest.newLines, rest.eof, rest.count + 1)
    else if line[0] == '+' then rest.(newLines := [line[1..]] + rest.newLines, count := rest.count + 1)
    else rest.(oldLines := [line[1..]] + rest.oldLines, count := rest.count + 1)
  }

  function ReadDiff(lines: seq<string>): (diff: Diff)
    ensures diff.count <= |lines|
    ensures lines != [] && lines[0] != EOF_MARKER && IsDiffLine(lines[0]) ==>
              diff.count > 0 && diff.oldLines + diff.newLines != []
  {
    if lines == [] then Diff([], [], false, 0)
    else if lines[0] == EOF_MARKER then Diff([], [], true, 1)
    else if IsDiffLine(lines[0]) then AddDiffLine(lines[0], ReadDiff(lines[1..]))
    else Diff([], [], false, 0)
  }

  /** The lines of a chunk, of which there must be at least one. */
  function ReadFirstDiff(lines: seq<string>, lineNumber: nat): (r: Result<Diff, ParseError>)
    requires lines != []
    ensures r.Success? ==> 1 <= r.value.count <= |lines| && r.value.oldLines + r.value.newLines != []
    ensures r.Failure? ==> r.error.InvalidHunk? && r.error.lineNumber == lineNumber
  {
    if lines[0] == EOF_MARKER then Failure(InvalidHunk(NoChunkLines, lineNumber))
    else if !IsDiffLine(lines[0]) then Failure(InvalidHunk(UnexpectedLine(lines[0]), lineNumber))
    else Success(ReadDiff(lines))
  }

  /** The context of a chunk and the number of header lines, 0 or 1. */
  function ChunkHeader(line: string, lineNumber: nat, allowMissingContext: bool)
    : Result<(Option<string>, nat), ParseError>
  {
    if line == EMPTY_CHANGE_CONTEXT_MARKER then Success((None, 1))
    else if CHANGE_CONTEXT_MARKER <= line then Success((Some(line[|CHANGE_CONTEXT_MARKER|..]), 1))
    else if allowMissingContext then Success((None, 0))
    else Failure(InvalidHunk(MissingContextMarker(line), lineNumber))
  }

  /** An error that names a line between `low` and `high`. */
  predicate ErrorWithin(error: ParseError, low: nat, high: nat) {
    error.InvalidHunk? && low <= error.lineNumber <= high
  }

  predicate HasLines(chunk: Chunk) {
    chunk.oldLines != [] || chunk.newLines != []
  }

  /** A chunk takes at least one line and at most all, and is not empty; an error is reported at its
      first line or at the line after. */
  function ParseChunk(lines: seq<string>, lineNumber: nat, allowMissingContext: bool)
    : (r: Result<(Chunk, nat), ParseError>)
    ensures r.Success? ==> 1 <= r.value.1 <= |lines| && HasLines(r.value.0)
    ensures r.Failure? ==> ErrorWithin(r.error, lineNumber, lineNumber + 1)
  {
    if lines == [] then Failure(InvalidHunk(NoChunkLines, lineNumber))
    else
      var (context, start) :- ChunkHeader(lines[0], lineNumber, allowMissingContext);
      if start >= |lines| then Failure(InvalidHunk(NoChunkLines, lineNumber + 1))
      else
        var diff :- ReadFirstDiff(lines[start..], lineNumber + 1);
        Success((Chunk(context, diff.oldLines, diff.newLines, diff.eof), start + diff.count))
  }

  // ---------- One hunk ----------

  predicate IsBlank(line: string) {
    Trim(line) == ""
  }

  predicate EndsUpdate(line: string) {
    |line| >= 3 && line[0] == '*' && line[1] == '*' && line[2] == '*'
  }

  /** The chunks of an update hunk: blank lines between chunks are skipped, and a line that starts
      with "***" ends the hunk. */
  function ParseChunks(lines: seq<string>, lineNumber: nat, first: bool)
    : (r: Result<(seq<Chunk>, nat), ParseError>)
    ensures r.Success? ==> |r.value.0| <= r.value.1 <= |lines|
    ensures r.Failure? ==> ErrorWithin(r.error, lineNumber, lineNumber + |lines|)
    decreases |lines|
  {
    if lines == [] then Success(([], 0))
    else if IsBlank(lines[0]) then
      var (chunks, n) :- ParseChunks(lines[1..], lineNumber + 1, first);
      Success((chunks, n + 1))
    else if EndsUpdate(lines[0]) then Success(([], 0))
    else
      var (chunk, k) :- ParseChunk(lines, lineNumber, first);
      var (chunks, n) :- ParseChunks(lines[k..], lineNumber + k, false);
      Success(([chunk] + chunks, k + n))
  }

  /** Chunks pushed so far, in front of what is still to be parsed. */
  function PushedChunks(chunks: seq<Chunk>, parsed: nat, rest: Result<(seq<Chunk>, nat), ParseError>)
    : Result<(seq<Chunk>, nat), ParseError>
  {
    match rest
    case Success((more, n)) => Success((chunks + more, parsed + n))
    case Failure(error) => Failure(error)
  }

  lemma ParseChunksStep(lines: seq<string>, lineNumber: nat, first: bool)
    requires lines != [] && !IsBlank(lines[0]) && !EndsUpdate(lines[0])
    ensures match ParseChunk(lines, lineNumber, first) {
              case Success((chunk, k)) =>
                ParseChunks(lines, lineNumber, first) ==
                PushedChunks([chunk], k, ParseChunks(lines[k..], lineNumber + k, false))
              case Failure(error) => ParseChunks(lines, lineNumber, first) == Failure(error)
            }
  {
    hide ParseChunk, IsBlank, EndsUpdate;
  }

  /** An update hunk ends where the body ends or where a line starts with "***". */
  lemma {:induction false} ChunksEnd(lines: seq<string>, lineNumber: nat, first: bool)
    requires ParseChunks(lines, lineNumber, first).Success?
    ensures var n := ParseChunks(lines, lineNumber, first).value.1;
            n == |lines| || EndsUpdate(lines[n])
    decreases |lines|
  {
    hide ParseChunk, IsBlank, EndsUpdate;
    if lines == [] {
    } else {
      if IsBlank(lines[0]) {
        ChunksEnd(lines[1..], lineNumber + 1, first);
        var n := ParseChunks(lines[1..], lineNumber + 1, first).value.1;
        assert n < |lines[1..]| ==> lines[1..][n] == lines[n + 1];
      } else if !EndsUpdate(lines[0]) {
        var k := ParseChunk(lines, lineNumber, first).value.1;
        ChunksEnd(lines[k..], lineNumber + k, false);
        var n := ParseChunks(lines[k..], lineNumber + k, false).value.1;
        assert n < |lines[k..]| ==> lines[k..][n] == lines[k + n];
      }
    }
  }

  /** No chunk of an update hunk is empty. */
  lemma {:induction false} ChunksHaveLines(lines: seq<string>, lineNumber: nat, first: bool)
    requires ParseChunks(lines, lineNumber, first).Success?
    ensures forall c :: c in ParseChunks(lines, lineNumber, first).value.0 ==> HasLines(c)
    decreases |lines|
  {
    hide ParseChunk, IsBlank, EndsUpdate, HasLines;
    if lines == [] {
    } else {
      if IsBlank(lines[0]) {
        ChunksHaveLines(lines[1..], lineNumber + 1, first);
      } else if !EndsUpdate(lines[0]) {
        var (chunk, k) := ParseChunk(lines, lineNumber, first).value;
        ChunksHaveLines(lines[k..], lineNumber + k, false);
        var (rest, n) := ParseChunks(lines[k..], lineNumber + k, false).value;
        assert ParseChunks(lines, lineNumber, first).value.0 == [chunk] + rest;
      }
    }
  }

  /** The leading "+" lines, each ended by a newline, and how many they are. */
  function ReadAddedLines(lines: seq<string>): (r: (string, nat))
    ensures r.1 <= |lines|
  {
    if lines == [] || !("+" <= lines[0]) then ("", 0)
    else
      var (contents, n) := ReadAddedLines(lines[1..]);
      (lines[0][1..] + "\n" + contents, n + 1)
  }

  /** An update hunk, whose header line names `path`. */
  function ParseUpdate(path: string, lines: seq<string>, lineNumber: nat): (r: Result<(Hunk, nat), ParseError>)
    requires lines != []
    ensures r.Success? ==> 1 <= r.value.1 <= |lines|
    ensures r.Failure? ==> ErrorWithin(r.error, lineNumber, lineNumber + |lines|)
  {
    var movePath := if |lines| > 1 then StripPrefix(lines[1], MOVE_TO_MARKER) else None;
    var skipped := if movePath.Some? then 2 else 1;
    var (chunks, n) :- ParseChunks(lines[skipped..], lineNumber + skipped, true);
    if chunks == [] then Failure(InvalidHunk(EmptyUpdateHunk(path), lineNumber))
    else Success((UpdateFile(path, movePath, chunks), skipped + n))
  }

  /** A hunk takes at least one line and at most all; an error names one of its lines or the line
      that follows the body. */
  function ParseHunk(lines: seq<string>, lineNumber: nat): (r: Result<(Hunk, nat), ParseError>)
    requires lines != []
    ensures r.Success? ==> 1 <= r.value.1 <= |lines|
    ensures r.Failure? ==> ErrorWithin(r.error, lineNumber, lineNumber + |lines|)
  {
    var header := Trim(lines[0]);
    if ADD_FILE_MARKER <= header then
      var (contents, n) := ReadAddedLines(lines[1..]);
      Success((AddFile(header[|ADD_FILE_MARKER|..], contents), n + 1))
    else if DELETE_FILE_MARKER <= header then
      Success((DeleteFile(header[|DELETE_FILE_MARKER|..]), 1))
    else if UPDATE_FILE_MARKER <= header then
      ParseUpdate(header[|UPDATE_FILE_MARKER|..], lines, lineNumber)
    else Failure(InvalidHunk(NotAHunkHeader(header), lineNumber))
  }

  // ---------- A whole patch ----------

  function Sum(counts: seq<nat>): nat {
    if counts == [] then 0 else counts[0] + Sum(counts[1..])
  }

  /** The body falls into consecutive spans, each of which parses as one hunk at its line number. */
  ghost predicate Segmented(lines: seq<string>, lineNumber: nat, hunks: seq<Hunk>, spans: seq<nat>)
    decreases |spans|
  {
    if spans == [] then lines == [] && hunks == []
    else
      && hunks != []
      && 1 <= spans[0] <= |lines|
      && ParseHunk(lines, lineNumber) == Success((hunks[0], spans[0]))
      && Segmented(lines[spans[0]..], lineNumber + spans[0], hunks[1..], spans[1..])
  }

  /** The hunks of a patch body, and how many lines each one takes. */
  function ParseHunks(lines: seq<string>, lineNumber: nat): (r: Result<(seq<Hunk>, seq<nat>), ParseError>)
    ensures r.Failure? ==> ErrorWithin(r.error, lineNumber, lineNumber + |lines|)
    decreases |lines|
  {
    if lines == [] then Success(([], []))
    else
      var (hunk, n) :- ParseHunk(lines, lineNumber);
      var (hunks, spans) :- ParseHunks(lines[n..], lineNumber + n);
      Success(([hunk] + hunks, [n] + spans))
  }

  lemma SegmentedCons(lines: seq<string>, lineNumber: nat, hunk: Hunk, n: nat, hunks: seq<Hunk>, spans: seq<nat>)
    requires lines != [] && ParseHunk(lines, lineNumber) == Success((hunk, n))
    requires n <= |lines| && Segmented(lines[n..], lineNumber + n, hunks, spans)
    ensures Segmented(lines, lineNumber, [hunk] + hunks, [n] + spans)
  {
    hide ParseHunk;
    assert ([hunk] + hunks)[1..] == hunks && ([n] + spans)[1..] == spans;
  }

  /** A successful parse uses up the body exactly. */
  lemma {:induction false} HunksUseUpBody(lines: seq<string>, lineNumber: nat)
    requires ParseHunks(lines, lineNumber).Success?
    ensures var (hunks, spans) := ParseHunks(lines, lineNumber).value;
            Segmented(lines, lineNumber, hunks, spans) && Sum(spans) == |lines|
    decreases |lines|
  {
    hide ParseHunk;
    if lines == [] {
    } else {
      var (hunk, n) := ParseHunk(lines, lineNumber).value;
      var (hunks, spans) := ParseHunks(lines[n..], lineNumber + n).value;
      HunksUseUpBody(lines[n..], lineNumber + n);
      SegmentedCons(lines, lineNumber, hunk, n, hunks, spans);
      assert ([n] + spans)[1..] == spans;
    }
  }

  /** `check_patch_boundaries_strict`: the error, if the first or last line is not a marker. */
  function StrictBoundaryError(lines: seq<string>): Option<ParseError> {
    if lines != [] && Trim(lines[0]) != BEGIN_PATCH_MARKER then Some(FirstLineNotBegin)
    else if lines != [] && Trim(lines[|lines| - 1]) == END_PATCH_MARKER then None
    else Some(LastLineNotEnd)
  }

  predicate IsHeredocOpener(line: string) {
    line == "<<EOF" || line == "<<'EOF'" || line == "<<\"EOF\""
  }

  /** The patch lines, without a heredoc wrapper in lenient mode. */
  function PatchLines(lines: seq<string>, mode: ParseMode): Result<seq<string>, ParseError> {
    match StrictBoundaryError(lines)
    case None => Success(lines)
    case Some(error) =>
      if mode == Lenient && |lines| >= 4 && IsHeredocOpener(lines[0]) && EndsWith(lines[|lines| - 1], "EOF") then
        var inner := lines[1..|lines| - 1];
        match StrictBoundaryError(inner)
        case None => Success(inner)
        case Some(innerError) => Failure(innerError)
      else Failure(error)
  }

  /** A line cannot be both markers, so accepted patch lines are at least two. */
  lemma PatchLinesAreTwo(lines: seq<string>)
    requires StrictBoundaryError(lines).None?
    ensures |lines| >= 2
  {
    assert BEGIN_PATCH_MARKER[4] != END_PATCH_MARKER[4];
  }

  /** Every position reported for a patch is a line of the patch after its first one. */
  function ParseText(patch: string, mode: ParseMode): (r: Result<PatchArgs, ParseError>)
    ensures r.Failure? && r.error.InvalidHunk? ==>
            var lines := PatchLines(Lines(Trim(patch)), mode);
            lines.Success? && 2 <= r.error.lineNumber <= |lines.value|
  {
    var lines :- PatchLines(Lines(Trim(patch)), mode);
    PatchLinesAreTwo(lines);
    var (hunks, spans) :- ParseHunks(lines[1..|lines| - 1], 2);
    Success(PatchArgs(hunks, Join(lines, "\n")))
  }
}
