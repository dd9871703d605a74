/** The parser as it is run: loops that push lines, chunks and hunks, each proved to compute what
    the recursive definitions of `PatchParser` say. */
module PatchParserLoops {
  import opened Wrappers
  import opened Text
  import opened PatchSyntax
  import opened PatchParser

  // ---------- One chunk ----------

  /** What has been pushed so far, in front of what is still to be read. */
  function PushedDiff(oldLines: seq<string>, newLines: seq<string>, count: nat, rest: Diff): Diff {
    Diff(oldLines + rest.oldLines, newLines + rest.newLines, rest.eof, count + rest.count)
  }

  lemma PushDiffLine(lines: seq<string>, i: nat, oldLines: seq<string>, newLines: seq<string>, count: nat)
    requires i < |lines| && IsDiffLine(lines[i]) && lines[i] != EOF_MARKER
    ensures var line := lines[i];
            var text := if line == "" then "" else line[1..];
            var inOld := line == "" || line[0] != '+';
            var inNew := line == "" || line[0] != '-';
            PushedDiff(oldLines, newLines, count, ReadDiff(lines[i..])) ==
            PushedDiff(if inOld then oldLines + [text] else oldLines,
                       if inNew then newLines + [text] else newLines,
                       count + 1, ReadDiff(lines[i + 1..]))
  {
    var line := lines[i];
    var text := if line == "" then "" else line[1..];
    var rest := ReadDiff(lines[i + 1..]);
    assert lines[i..][0] == line && lines[i..][1..] == lines[i + 1..];
    assert ReadDiff(lines[i..]) == AddDiffLine(line, rest);
    assert oldLines + ([text] + rest.oldLines) == oldLines + [text] + rest.oldLines;
    assert newLines + ([text] + rest.newLines) == newLines + [text] + rest.newLines;
  }

  /** Reading stops after an end-of-file marker, at a line that is no diff line, and at the end. */
  lemma DiffStops(lines: seq<string>, i: nat, oldLines: seq<string>, newLines: seq<string>, count: nat)
    requires i <= |lines| && (i < |lines| ==> lines[i] == EOF_MARKER || !IsDiffLine(lines[i]))
    ensures var atMarker := i < |lines| && lines[i] == EOF_MARKER;
            PushedDiff(oldLines, newLines, count, ReadDiff(lines[i..])) ==
            Diff(oldLines, newLines, atMarker, if atMarker then count + 1 else count)
  {
    assert i < |lines| ==> lines[i..][0] == lines[i];
    assert oldLines + [] == oldLines && newLines + [] == newLines;
  }

  /** The loop over the lines of a chunk. */
  method ReadDiffLoop(lines: seq<string>, lineNumber: nat) returns (r: Result<Diff, ParseError>)
    requires lines != []
    ensures r == ReadFirstDiff(lines, lineNumber)
  {
    hide ReadDiff;
    var oldLines: seq<string>, newLines: seq<string> := [], [];
    var parsedLines: nat := 0;
    ghost var target := ReadDiff(lines);
    assert lines[0..] == lines;
    assert target == PushedDiff([], [], 0, target) by {
      assert [] + target.oldLines == target.oldLines && [] + target.newLines == target.newLines;
    }
    while parsedLines < |lines|
      invariant parsedLines <= |lines|
      invariant parsedLines > 0 ==> lines[0] != EOF_MARKER && IsDiffLine(lines[0])
      invariant target == PushedDiff(oldLines, newLines, parsedLines, ReadDiff(lines[parsedLines..]))
    {
      var line := lines[parsedLines];
      if line == EOF_MARKER {
        if parsedLines == 0 {
          return Failure(InvalidHunk(NoChunkLines, lineNumber));
        }
        DiffStops(lines, parsedLines, oldLines, newLines, parsedLines);
        return Success(Diff(oldLines, newLines, true, parsedLines + 1));
      }
      if !IsDiffLine(line) {
        if parsedLines == 0 {
          return Failure(InvalidHunk(UnexpectedLine(line), lineNumber));
        }
        break;
      }
      PushDiffLine(lines, parsedLines, oldLines, newLines, parsedLines);
      if line == "" {
        oldLines, newLines := oldLines + [""], newLines + [""];
      } else if line[0] == ' ' {
        oldLines, newLines := oldLines + [line[1..]], newLines + [line[1..]];
      } else if line[0] == '+' {
        newLines := newLines + [line[1..]];
      } else {
        oldLines := oldLines + [line[1..]];
      }
      parsedLines := parsedLines + 1;
    }
    DiffStops(lines, parsedLines, oldLines, newLines, parsedLines);
    return Success(Diff(oldLines, newLines, false, parsedLines));
  }

  method ParseUpdateFileChunk(lines: seq<string>, lineNumber: nat, allowMissingContext: bool)
    returns (r: Result<(Chunk, nat), ParseError>)
    ensures r == ParseChunk(lines, lineNumber, allowMissingContext)
  {
    hide ReadFirstDiff;
    if lines == [] {
      return Failure(InvalidHunk(NoChunkLines, lineNumber));
    }
    var header :- ChunkHeader(lines[0], lineNumber, allowMissingContext);
    var (changeContext, startIndex) := header;
    if startIndex >= |lines| {
      return Failure(InvalidHunk(NoChunkLines, lineNumber + 1));
    }
    var diff :- ReadDiffLoop(lines[startIndex..], lineNumber + 1);
    return Success((Chunk(changeContext, diff.oldLines, diff.newLines, diff.eof), startIndex + diff.count));
  }

  // ---------- One hunk ----------

  lemma SkipBlankLine(lines: seq<string>, i: nat, lineNumber: nat, chunks: seq<Chunk>)
    requires i < |lines| && IsBlank(lines[i])
    ensures PushedChunks(chunks, i, ParseChunks(lines[i..], lineNumber + i, chunks == [])) ==
            PushedChunks(chunks, i + 1, ParseChunks(lines[i + 1..], lineNumber + i + 1, chunks == []))
  {
    hide ParseChunk, IsBlank, EndsUpdate;
    assert lines[i..][0] == lines[i] && lines[i..][1..] == lines[i + 1..];
  }

  lemma PushedTwice(chunks: seq<Chunk>, i: nat, chunk: Chunk, k: nat, rest: Result<(seq<Chunk>, nat), ParseError>)
    ensures PushedChunks(chunks, i, PushedChunks([chunk], k, rest)) == PushedChunks(chunks + [chunk], i + k, rest)
  {
    if rest.Success? {
      assert chunks + ([chunk] + rest.value.0) == chunks + [chunk] + rest.value.0;
    }
  }

  lemma PushChunk(lines: seq<string>, i: nat, lineNumber: nat, chunks: seq<Chunk>)
    requires i < |lines| && !IsBlank(lines[i]) && !EndsUpdate(lines[i])
    ensures var parsed := ParseChunk(lines[i..], lineNumber + i, chunks == []);
            var all := PushedChunks(chunks, i, ParseChunks(lines[i..], lineNumber + i, chunks == []));
            match parsed {
              case Success((chunk, k)) =>
                i + k <= |lines| &&
                all == PushedChunks(chunks + [chunk], i + k, ParseChunks(lines[i + k..], lineNumber + i + k, false))
              case Failure(error) => all == Failure(error)
            }
  {
    hide ParseChunk, ParseChunks, IsBlank, EndsUpdate;
    assert lines[i..][0] == lines[i];
    ParseChunksStep(lines[i..], lineNumber + i, chunks == []);
    var parsed := ParseChunk(lines[i..], lineNumber + i, chunks == []);
    if parsed.Success? {
      var (chunk, k) := parsed.value;
      assert lines[i..][k..] == lines[i + k..];
      PushedTwice(chunks, i, chunk, k, ParseChunks(lines[i + k..], lineNumber + i + k, false));
    }
  }

  /** The hunk ends at the end of the lines or at a line that starts with "***". */
  lemma ChunksStop(lines: seq<string>, i: nat, lineNumber: nat, chunks: seq<Chunk>)
    requires i <= |lines| && (i < |lines| ==> !IsBlank(lines[i]) && EndsUpdate(lines[i]))
    ensures PushedChunks(chunks, i, ParseChunks(lines[i..], lineNumber, chunks == [])) == Success((chunks, i))
  {
    hide ParseChunk, IsBlank, EndsUpdate;
    assert i < |lines| ==> lines[i..][0] == lines[i];
    assert ParseChunks(lines[i..], lineNumber, chunks == []) == Success(([], 0));
    assert chunks + [] == chunks;
  }

  /** The loop over the chunks of an update hunk; blank lines do not count as the first chunk. */
  method ParseChunkLoop(lines: seq<string>, skipped: nat, lineNumber: nat)
    returns (r: Result<(seq<Chunk>, nat), ParseError>)
    requires skipped <= |lines|
    ensures r == PushedChunks([], skipped, ParseChunks(lines[skipped..], lineNumber + skipped, true))
  {
    hide ParseChunk, ParseChunks, IsBlank, EndsUpdate;
    var chunks: seq<Chunk> := [];
    var parsedLines := skipped;
    ghost var target := PushedChunks([], skipped, ParseChunks(lines[skipped..], lineNumber + skipped, true));
    while parsedLines < |lines|
      invariant skipped <= parsedLines <= |lines|
      invariant target ==
          PushedChunks(chunks, parsedLines,
                       ParseChunks(lines[parsedLines..], lineNumber + parsedLines, chunks == []))
    {
      if IsBlank(lines[parsedLines]) {
        SkipBlankLine(lines, parsedLines, lineNumber, chunks);
        parsedLines := parsedLines + 1;
        continue;
      }
      if EndsUpdate(lines[parsedLines]) {
        ChunksStop(lines, parsedLines, lineNumber + parsedLines, chunks);
        return Success((chunks, parsedLines));
      }
      PushChunk(lines, parsedLines, lineNumber, chunks);
      var parsed :- ParseUpdateFileChunk(lines[parsedLines..], lineNumber + parsedLines, chunks == []);
      chunks := chunks + [parsed.0];
      parsedLines := parsedLines + parsed.1;
    }
    ChunksStop(lines, parsedLines, lineNumber + parsedLines, chunks);
    return Success((chunks, parsedLines));
  }

  /** Contents pushed so far, in front of what is still to be read. */
  function PushedContents(contents: string, count: nat, rest: (string, nat)): (string, nat) {
    (contents + rest.0, count + rest.1)
  }

  lemma ReadAddedStep(lines: seq<string>, i: nat)
    requires i < |lines| && "+" <= lines[i]
    ensures ReadAddedLines(lines[i..]) == PushedContents(lines[i][1..] + "\n", 1, ReadAddedLines(lines[i + 1..]))
  {
    assert lines[i..][0] == lines[i] && lines[i..][1..] == lines[i + 1..];
  }

  lemma PushTwice(contents: string, count: nat, line: string, end: string, rest: (string, nat))
    ensures PushedContents(contents, count, PushedContents(line + end, 1, rest)) ==
            PushedContents(contents + line + end, count + 1, rest)
  {
    Regroup(contents, line, end, rest.0);
  }

  lemma PushAddedLine(lines: seq<string>, i: nat, contents: string, count: nat)
    requires i < |lines| && "+" <= lines[i]
    ensures PushedContents(contents, count, ReadAddedLines(lines[i..])) ==
            PushedContents(contents + lines[i][1..] + "\n", count + 1, ReadAddedLines(lines[i + 1..]))
  {
    ReadAddedStep(lines, i);
    hide ReadAddedLines;
    PushTwice(contents, count, lines[i][1..], "\n", ReadAddedLines(lines[i + 1..]));
  }

  /** The loop that collects the contents of an added file. */
  method ReadAddedLoop(lines: seq<string>) returns (contents: string, parsedLines: nat)
    requires lines != []
    ensures parsedLines >= 1
    ensures (contents, parsedLines - 1) == ReadAddedLines(lines[1..])
  {
    contents, parsedLines := "", 1;
    ghost var target := ReadAddedLines(lines[1..]);
    assert "" + target.0 == target.0;
    while parsedLines < |lines| && "+" <= lines[parsedLines]
      invariant 1 <= parsedLines <= |lines|
      invariant target == PushedContents(contents, parsedLines - 1, ReadAddedLines(lines[parsedLines..]))
    {
      hide ReadAddedLines;
      PushAddedLine(lines, parsedLines, contents, parsedLines - 1);
      contents := contents + lines[parsedLines][1..] + "\n";
      parsedLines := parsedLines + 1;
    }
    assert parsedLines < |lines| ==> lines[parsedLines..][0] == lines[parsedLines];
    assert ReadAddedLines(lines[parsedLines..]) == ("", 0);
    assert contents + "" == contents;
  }

  method ParseOneHunk(lines: seq<string>, lineNumber: nat) returns (r: Result<(Hunk, nat), ParseError>)
    requires lines != []
    ensures r == ParseHunk(lines, lineNumber)
  {
    hide ParseChunks, ReadAddedLines, Trim;
    var firstLine := Trim(lines[0]);
    if ADD_FILE_MARKER <= firstLine {
      var contents, parsedLines := ReadAddedLoop(lines);
      return Success((AddFile(firstLine[|ADD_FILE_MARKER|..], contents), parsedLines));
    } else if DELETE_FILE_MARKER <= firstLine {
      return Success((DeleteFile(firstLine[|DELETE_FILE_MARKER|..]), 1));
    } else if UPDATE_FILE_MARKER <= firstLine {
      var path := firstLine[|UPDATE_FILE_MARKER|..];
      var parsedLines := 1;
      var movePath: Option<string> := None;
      if |lines| > 1 {
        movePath := StripPrefix(lines[1], MOVE_TO_MARKER);
      }
      if movePath.Some? {
        parsedLines := parsedLines + 1;
      }
      var parsed :- ParseChunkLoop(lines, parsedLines, lineNumber);
      assert [] + parsed.0 == parsed.0;
      ghost var chunks := ParseChunks(lines[parsedLines..], lineNumber + parsedLines, true);
      assert chunks.Success? ==> [] + chunks.value.0 == chunks.value.0;
      if parsed.0 == [] {
        return Failure(InvalidHunk(EmptyUpdateHunk(path), lineNumber));
      }
      return Success((UpdateFile(path, movePath, parsed.0), parsed.1));
    }
    return Failure(InvalidHunk(NotAHunkHeader(firstLine), lineNumber));
  }

  // ---------- A whole patch ----------

  /** Hunks pushed so far, in front of what is still to be parsed. */
  function PushedHunks(hunks: seq<Hunk>, rest: Result<(seq<Hunk>, seq<nat>), ParseError>)
    : Result<seq<Hunk>, ParseError>
  {
    match rest
    case Success((more, _)) => Success(hunks + more)
    case Failure(error) => Failure(error)
  }

  lemma PushHunk(lines: seq<string>, i: nat, lineNumber: nat, hunks: seq<Hunk>)
    requires i < |lines|
    ensures var parsed := ParseHunk(lines[i..], lineNumber);
            var all := PushedHunks(hunks, ParseHunks(lines[i..], lineNumber));
            match parsed {
              case Success((hunk, n)) =>
                i + n <= |lines| &&
                all == PushedHunks(hunks + [hunk], ParseHunks(lines[i + n..], lineNumber + n))
              case Failure(error) => all == Failure(error)
            }
  {
    hide ParseHunk;
    var parsed := ParseHunk(lines[i..], lineNumber);
    if parsed.Success? {
      var (hunk, n) := parsed.value;
      assert lines[i..][n..] == lines[i + n..];
      var rest := ParseHunks(lines[i + n..], lineNumber + n);
      if rest.Success? {
        assert hunks + ([hunk] + rest.value.0) == hunks + [hunk] + rest.value.0;
      }
    }
  }

  /** The loop over the hunks of a patch body. */
  method ParseHunkLoop(body: seq<string>) returns (r: Result<seq<Hunk>, ParseError>)
    ensures r == PushedHunks([], ParseHunks(body, 2))
  {
    hide ParseHunk;
    var hunks: seq<Hunk> := [];
    var remaining := body;
    var lineNumber: nat := 2;
    while remaining != []
      invariant PushedHunks(hunks, ParseHunks(remaining, lineNumber)) == PushedHunks([], ParseHunks(body, 2))
      decreases |remaining|
    {
      hide ParseHunks;
      assert remaining[0..] == remaining;
      PushHunk(remaining, 0, lineNumber, hunks);
      var parsed :- ParseOneHunk(remaining, lineNumber);
      hunks := hunks + [parsed.0];
      lineNumber := lineNumber + parsed.1;
      remaining := remaining[parsed.1..];
    }
    assert hunks + [] == hunks;
    return Success(hunks);
  }

  method ParsePatchText(patch: string, mode: ParseMode) returns (r: Result<PatchArgs, ParseError>)
    ensures r == ParseText(patch, mode)
  {
    hide ParseHunk, ParseHunks, StrictBoundaryError, Lines, Trim;
    var lines :- PatchLines(Lines(Trim(patch)), mode);
    PatchLinesAreTwo(lines);
    var body := lines[1..|lines| - 1];
    var hunks :- ParseHunkLoop(body);
    assert [] + ParseHunks(body, 2).value.0 == ParseHunks(body, 2).value.0;
    return Success(PatchArgs(hunks, Join(lines, "\n")));
  }
}
