/** Whatever the parser accepts can be printed, and the printed patch parses to the same hunks. */
module PatchReparse {
  import opened Wrappers
  import opened Text
  import opened PatchSyntax
  import opened PatchParser
  import opened PatchRoundTrip
  import opened PatchText

  // ---------- Parsed chunks are well-formed ----------

  lemma PlainSuffix(line: string, k: nat)
    requires PlainLine(line) && k <= |line|
    ensures PlainLine(line[k..])
  {
  }

  lemma PlainTail(lines: seq<string>, k: nat)
    requires AllPlain(lines) && k <= |lines|
    ensures AllPlain(lines[k..])
    ensures lines != [] ==> PlainLine(lines[0])
  {
  }

  lemma {:induction false} ReadDiffPlain(lines: seq<string>)
    requires AllPlain(lines)
    ensures AllPlain(ReadDiff(lines).oldLines) && AllPlain(ReadDiff(lines).newLines)
  {
    if lines != [] && lines[0] != EOF_MARKER && IsDiffLine(lines[0]) {
      PlainTail(lines, 1);
      ReadDiffPlain(lines[1..]);
      var rest := ReadDiff(lines[1..]);
      if lines[0] != "" {
        PlainSuffix(lines[0], 1);
      }
      hide PlainLine;
      var first := if lines[0] == "" then "" else lines[0][1..];
      AllPlainConcat([first], rest.oldLines);
      AllPlainConcat([first], rest.newLines);
    }
  }

  lemma ParsedChunkWellFormed(lines: seq<string>, lineNumber: nat, first: bool)
    requires AllPlain(lines) && ParseChunk(lines, lineNumber, first).Success?
    ensures WellFormedChunk(ParseChunk(lines, lineNumber, first).value.0)
  {
    var start := ChunkHeader(lines[0], lineNumber, first).value.1;
    PlainTail(lines, start);
    ReadDiffPlain(lines[start..]);
    if CHANGE_CONTEXT_MARKER <= lines[0] {
      PlainSuffix(lines[0], |CHANGE_CONTEXT_MARKER|);
    }
    hide ReadDiff, PlainLine, IsDiffLine;
  }

  lemma {:induction false} ParsedChunksWellFormed(lines: seq<string>, lineNumber: nat, first: bool)
    requires AllPlain(lines) && ParseChunks(lines, lineNumber, first).Success?
    ensures forall c :: c in ParseChunks(lines, lineNumber, first).value.0 ==> WellFormedChunk(c)
    decreases |lines|
  {
    hide ParseChunk, IsBlank, EndsUpdate, WellFormedChunk, PlainLine;
    if lines == [] {
    } else {
      if IsBlank(lines[0]) {
        PlainTail(lines, 1);
        ParsedChunksWellFormed(lines[1..], lineNumber + 1, first);
      } else if !EndsUpdate(lines[0]) {
        var (chunk, k) := ParseChunk(lines, lineNumber, first).value;
        ParsedChunkWellFormed(lines, lineNumber, first);
        PlainTail(lines, k);
        ParsedChunksWellFormed(lines[k..], lineNumber + k, false);
        var (rest, n) := ParseChunks(lines[k..], lineNumber + k, false).value;
        assert ParseChunks(lines, lineNumber, first).value.0 == [chunk] + rest;
      }
    }
  }

  // ---------- Parsed hunks are well-formed ----------

  lemma {:induction false} ReadAddedIsLines(lines: seq<string>) returns (added: seq<string>)
    requires AllPlain(lines)
    ensures ReadAddedLines(lines).0 == Unlines(added) && AllPlain(added)
  {
    if lines == [] || !("+" <= lines[0]) {
      added := [];
    } else {
      PlainTail(lines, 1);
      PlainSuffix(lines[0], 1);
      var rest := ReadAddedIsLines(lines[1..]);
      hide PlainLine;
      added := [lines[0][1..]] + rest;
      assert added[1..] == rest;
      AllPlainConcat([lines[0][1..]], rest);
    }
  }

  lemma {:induction false} UnlinesEnds(lines: seq<string>)
    ensures Unlines(lines) == "" || Unlines(lines)[|Unlines(lines)| - 1] == '\n'
  {
    if lines == [] {
    } else {
      UnlinesEnds(lines[1..]);
    }
  }

  lemma AddedWellFormed(path: string, lines: seq<string>)
    requires PrintablePath(path) && AllPlain(lines)
    ensures WellFormed(AddFile(path, ReadAddedLines(lines).0))
  {
    var added := ReadAddedIsLines(lines);
    UnlinesEnds(added);
    UnlinesIsJoin(added);
    assert forall l :: l in added + [""] ==> '\n' !in l;
    SplitJoin(added + [""], '\n');
    hide PlainLine, PrintablePath;
    assert ContentLines(Unlines(added)) == added;
  }

  /** The header is trimmed, so what follows a marker that ends in a blank is a path that can be printed. */
  lemma HeaderPath(line: string, marker: string)
    requires PlainLine(line) && marker <= Trim(line)
    requires marker != "" && marker[|marker| - 1] == ' '
    ensures PrintablePath(Trim(line)[|marker|..])
  {
    var lead, trail := TrimSplits(line);
    var header := Trim(line);
    assert line == lead + header + trail;
    assert forall c :: c in header ==> c in line;
    hide Trim;
    var path := header[|marker|..];
    assert header == marker + path;
    assert header[|header| - 1] != ' ';
    assert path != "" ==> path[|path| - 1] == header[|header| - 1];
  }

  lemma ParsedUpdateWellFormed(path: string, lines: seq<string>, lineNumber: nat)
    requires PrintablePath(path) && AllPlain(lines) && lines != []
    requires ParseUpdate(path, lines, lineNumber).Success?
    ensures WellFormed(ParseUpdate(path, lines, lineNumber).value.0)
  {
    var movePath := if |lines| > 1 then StripPrefix(lines[1], MOVE_TO_MARKER) else None;
    var skipped := if movePath.Some? then 2 else 1;
    PlainTail(lines, skipped);
    ParsedChunksWellFormed(lines[skipped..], lineNumber + skipped, true);
    if movePath.Some? {
      assert lines[1] in lines;
      PlainSuffix(lines[1], |MOVE_TO_MARKER|);
    }
    hide ParseChunks, WellFormedChunk, PlainLine, PrintablePath;
  }

  lemma ParsedHunkWellFormed(lines: seq<string>, lineNumber: nat)
    requires AllPlain(lines) && lines != [] && ParseHunk(lines, lineNumber).Success?
    ensures WellFormed(ParseHunk(lines, lineNumber).value.0)
  {
    PlainTail(lines, 1);
    hide Trim, ParseUpdate, WellFormedChunk, PlainLine, PrintablePath;
    var header := Trim(lines[0]);
    if ADD_FILE_MARKER <= header {
      HeaderPath(lines[0], ADD_FILE_MARKER);
      AddedWellFormed(header[|ADD_FILE_MARKER|..], lines[1..]);
    } else if DELETE_FILE_MARKER <= header {
      HeaderPath(lines[0], DELETE_FILE_MARKER);
    } else if UPDATE_FILE_MARKER <= header {
      HeaderPath(lines[0], UPDATE_FILE_MARKER);
      ParsedUpdateWellFormed(header[|UPDATE_FILE_MARKER|..], lines, lineNumber);
    }
  }

  lemma {:induction false} ParsedHunksWellFormed(lines: seq<string>, lineNumber: nat)
    requires AllPlain(lines) && ParseHunks(lines, lineNumber).Success?
    ensures forall h :: h in ParseHunks(lines, lineNumber).value.0 ==> WellFormed(h)
    decreases |lines|
  {
    hide ParseHunk, WellFormed, PlainLine;
    if lines == [] {
    } else {
      var (hunk, n) := ParseHunk(lines, lineNumber).value;
      ParsedHunkWellFormed(lines, lineNumber);
      PlainTail(lines, n);
      ParsedHunksWellFormed(lines[n..], lineNumber + n);
      var (hunks, spans) := ParseHunks(lines[n..], lineNumber + n).value;
      assert ParseHunks(lines, lineNumber).value.0 == [hunk] + hunks;
    }
  }

  // ---------- Whole patches ----------

  /** Taking the heredoc off and dropping the markers leaves plain lines plain. */
  lemma BodyIsPlain(lines: seq<string>, mode: ParseMode)
    requires AllPlain(lines) && PatchLines(lines, mode).Success?
    ensures |PatchLines(lines, mode).value| >= 2
    ensures AllPlain(PatchLines(lines, mode).value[1..|PatchLines(lines, mode).value| - 1])
  {
    var patchLines := PatchLines(lines, mode).value;
    assert StrictBoundaryError(patchLines).None?;
    PatchLinesAreTwo(patchLines);
    hide PlainLine, StrictBoundaryError, IsHeredocOpener;
    assert forall l :: l in patchLines ==> l in lines;
  }

  lemma PrintedParses(hunks: seq<Hunk>, mode: ParseMode)
    requires forall h :: h in hunks ==> WellFormed(h)
    ensures ParseText(Print(hunks), mode) == Success(PatchArgs(hunks, Print(hunks)))
  {
    assert forall i :: 0 <= i < |hunks| ==> hunks[i] in hunks;
    hide WellFormed, ParseText, Print;
    ParseOfPrint(hunks, "<<EOF", "", "", mode);
    assert "" + Print(hunks) + "" == Print(hunks);
  }

  /** Every patch that parses, and none of whose lines ends in a bare carriage return, yields hunks that the
      printer can write; parsing what it writes, in either mode, gives back the same hunks. */
  lemma ParseOfReprint(patch: string, mode: ParseMode, again: ParseMode)
    requires ParseText(patch, mode).Success? && AllPlain(Lines(Trim(patch)))
    ensures var hunks := ParseText(patch, mode).value.hunks;
            ParseText(Print(hunks), again) == Success(PatchArgs(hunks, Print(hunks)))
  {
    var lines := Lines(Trim(patch));
    BodyIsPlain(lines, mode);
    var patchLines := PatchLines(lines, mode).value;
    var body := patchLines[1..|patchLines| - 1];
    hide Lines, Trim, PatchLines, AllPlain, WellFormed, Print, ParseHunks;
    ParsedHunksWellFormed(body, 2);
    var hunks := ParseText(patch, mode).value.hunks;
    assert hunks == ParseHunks(body, 2).value.0;
    PrintedParses(hunks, again);
  }
}
