/** Which line of a patch a parse error names, and what is wrong with it. */
module PatchErrorLines {
  import opened Wrappers
  import opened Text
  import opened PatchParser

  predicate OpensHunk(header: string) {
    ADD_FILE_MARKER <= header || DELETE_FILE_MARKER <= header || UPDATE_FILE_MARKER <= header
  }

  predicate OpensChunk(line: string) {
    line == EMPTY_CHANGE_CONTEXT_MARKER || CHANGE_CONTEXT_MARKER <= line
  }

  /** The problem fits the lines around index `i`. A line that belongs nowhere is named itself where its chunk has
      a header; in a first chunk without one the line after it is named. */
  predicate Fits(lines: seq<string>, i: int, problem: HunkProblem) {
    match problem
    case NotAHunkHeader(header) =>
      0 <= i < |lines| && header == Trim(lines[i]) && !OpensHunk(header)
    case EmptyUpdateHunk(path) =>
      0 <= i < |lines| && Trim(lines[i]) == UPDATE_FILE_MARKER + path
    case MissingContextMarker(line) =>
      0 <= i < |lines| && line == lines[i] && !OpensChunk(line)
    case UnexpectedLine(line) =>
      && 1 <= i <= |lines|
      && (if OpensChunk(lines[i - 1]) then i < |lines| && line == lines[i] else line == lines[i - 1])
      && !IsDiffLine(line) && line != EOF_MARKER
    case NoChunkLines =>
      1 <= i <= |lines| && OpensChunk(lines[i - 1]) && (i == |lines| || lines[i] == EOF_MARKER)
  }

  /** The error names one of these lines, the first of which has the given number, or the line after. */
  predicate NamesItsLine(lines: seq<string>, lineNumber: nat, error: ParseError) {
    error.InvalidHunk? && Fits(lines, error.lineNumber - lineNumber, error.problem)
  }

  lemma FitsLater(lines: seq<string>, k: nat, lineNumber: nat, error: ParseError)
    requires k <= |lines| && NamesItsLine(lines[k..], lineNumber + k, error)
    ensures NamesItsLine(lines, lineNumber, error)
  {
    hide OpensHunk, OpensChunk, IsDiffLine, Trim;
    var rest, i := lines[k..], error.lineNumber - lineNumber;
    assert forall j :: 0 <= j < |rest| ==> rest[j] == lines[k + j];
    assert i - k >= 1 ==> rest[i - k - 1] == lines[i - 1];
    assert 0 <= i - k < |rest| ==> rest[i - k] == lines[i];
  }

  lemma ChunkErrorLine(lines: seq<string>, lineNumber: nat, first: bool)
    requires lines != [] && !EndsUpdate(lines[0])
    requires ParseChunk(lines, lineNumber, first).Failure?
    ensures NamesItsLine(lines, lineNumber, ParseChunk(lines, lineNumber, first).error)
  {
    hide ReadDiff, IsDiffLine;
    assert EndsUpdate(EOF_MARKER);
  }

  lemma {:induction false} ChunksErrorLine(lines: seq<string>, lineNumber: nat, first: bool)
    requires ParseChunks(lines, lineNumber, first).Failure?
    ensures NamesItsLine(lines, lineNumber, ParseChunks(lines, lineNumber, first).error)
    decreases |lines|
  {
    hide ParseChunk, IsBlank, EndsUpdate, NamesItsLine;
    if IsBlank(lines[0]) {
      ChunksErrorLine(lines[1..], lineNumber + 1, first);
      FitsLater(lines, 1, lineNumber, ParseChunks(lines[1..], lineNumber + 1, first).error);
    } else {
      ParseChunksStep(lines, lineNumber, first);
      if ParseChunk(lines, lineNumber, first).Failure? {
        ChunkErrorLine(lines, lineNumber, first);
      } else {
        var k := ParseChunk(lines, lineNumber, first).value.1;
        ChunksErrorLine(lines[k..], lineNumber + k, false);
        FitsLater(lines, k, lineNumber, ParseChunks(lines[k..], lineNumber + k, false).error);
      }
    }
  }

  lemma HunkErrorLine(lines: seq<string>, lineNumber: nat)
    requires lines != [] && ParseHunk(lines, lineNumber).Failure?
    ensures NamesItsLine(lines, lineNumber, ParseHunk(lines, lineNumber).error)
  {
    hide ParseChunks, Trim, OpensChunk;
    var header := Trim(lines[0]);
    if OpensHunk(header) {
      var path := header[|UPDATE_FILE_MARKER|..];
      assert header == UPDATE_FILE_MARKER + path;
      var moves := |lines| > 1 && StripPrefix(lines[1], MOVE_TO_MARKER).Some?;
      var skipped := if moves then 2 else 1;
      if ParseChunks(lines[skipped..], lineNumber + skipped, true).Failure? {
        ChunksErrorLine(lines[skipped..], lineNumber + skipped, true);
        FitsLater(lines, skipped, lineNumber, ParseChunks(lines[skipped..], lineNumber + skipped, true).error);
      }
    }
  }

  lemma {:induction false} HunksErrorLine(lines: seq<string>, lineNumber: nat)
    requires ParseHunks(lines, lineNumber).Failure?
    ensures NamesItsLine(lines, lineNumber, ParseHunks(lines, lineNumber).error)
    decreases |lines|
  {
    hide ParseHunk, NamesItsLine;
    if ParseHunk(lines, lineNumber).Failure? {
      HunkErrorLine(lines, lineNumber);
    } else {
      var n := ParseHunk(lines, lineNumber).value.1;
      HunksErrorLine(lines[n..], lineNumber + n);
      FitsLater(lines, n, lineNumber, ParseHunks(lines[n..], lineNumber + n).error);
    }
  }

  /** An error in a hunk names a line of the patch, counted from one, and tells what is wrong there. */
  lemma ErrorNamesItsLine(patch: string, mode: ParseMode)
    requires var r := ParseText(patch, mode); r.Failure? && r.error.InvalidHunk?
    ensures PatchLines(Lines(Trim(patch)), mode).Success?
    ensures var lines := PatchLines(Lines(Trim(patch)), mode).value;
            |lines| >= 2 && NamesItsLine(lines[..|lines| - 1], 1, ParseText(patch, mode).error)
  {
    hide ParseHunks, Lines, Trim, NamesItsLine, StrictBoundaryError;
    var lines := PatchLines(Lines(Trim(patch)), mode).value;
    PatchLinesAreTwo(lines);
    var body, all := lines[1..|lines| - 1], lines[..|lines| - 1];
    assert all[1..] == body;
    HunksErrorLine(body, 2);
    FitsLater(all, 1, 1, ParseText(patch, mode).error);
  }

  lemma StrayLine(lineNumber: nat)
    ensures ParseChunks(["x"], lineNumber, true) == Failure(InvalidHunk(UnexpectedLine("x"), lineNumber + 1))
  {
    assert Trim("x") == "x" by { TrimOfTrimmed("x"); }
    assert ["x"][0..] == ["x"];
    hide Trim;
    assert ParseChunk(["x"], lineNumber, true) == Failure(InvalidHunk(UnexpectedLine("x"), lineNumber + 1));
    hide ParseChunk;
  }

  lemma HeaderOfUpdate(lines: seq<string>, path: string, lineNumber: nat)
    requires lines != [] && lines[0] == UPDATE_FILE_MARKER + path && Trimmed(lines[0])
    ensures ParseHunk(lines, lineNumber) == ParseUpdate(path, lines, lineNumber)
  {
    var header := lines[0];
    assert Trim(header) == header by { TrimOfTrimmed(header); }
    assert header[4] == 'U' && header[|UPDATE_FILE_MARKER|..] == path;
    hide Trim, ParseUpdate;
  }

  lemma StrayUpdate(lines: seq<string>, lineNumber: nat)
    requires |lines| == 2 && lines[1] == "x"
    ensures ParseUpdate("a", lines, lineNumber) == Failure(InvalidHunk(UnexpectedLine("x"), lineNumber + 2))
  {
    StrayLine(lineNumber + 1);
    hide ParseChunks;
    assert lines[1..] == ["x"];
  }

  /** The third line of this patch belongs nowhere, and the fourth one is named. */
  lemma HeaderlessErrorIsLate()
    ensures ParseHunks(["*** Update File: a", "x"], 2) == Failure(InvalidHunk(UnexpectedLine("x"), 4))
  {
    var lines := ["*** Update File: a", "x"];
    hide ParseHunk, ParseUpdate;
    assert lines[0] == UPDATE_FILE_MARKER + "a";
    HeaderOfUpdate(lines, "a", 2);
    StrayUpdate(lines, 2);
  }
}
