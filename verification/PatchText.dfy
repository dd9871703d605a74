/** Round trips on whole patch texts: rendered documents and printed hunks, bare, padded with
    whitespace, or wrapped in a heredoc. */
module PatchText {
  import opened Wrappers
  import opened Text
  import opened PatchSyntax
  import opened PatchParser
  import opened PatchRoundTrip

  // ---------- Rendered lines survive being joined and split ----------

  predicate AllPlain(lines: seq<string>) {
    forall l :: l in lines ==> PlainLine(l)
  }

  lemma PrefixedPlain(prefix: string, text: string)
    requires prefix != "" && '\n' !in prefix && prefix[|prefix| - 1] != '\r' && PlainLine(text)
    ensures PlainLine(prefix + text)
  {
  }

  lemma PathPlain(path: string)
    requires PrintablePath(path)
    ensures PlainLine(path)
  {
  }

  lemma AllPlainConcat(a: seq<string>, b: seq<string>)
    requires AllPlain(a) && AllPlain(b)
    ensures AllPlain(a + b)
  {
  }

  lemma DiffLinePlain(line: DiffLine)
    requires PrintableDiffLine(line)
    ensures PlainLine(RenderDiffLine(line))
  {
    if !line.Blank? {
      PrefixedPlain(" ", line.text);
      PrefixedPlain("+", line.text);
      PrefixedPlain("-", line.text);
    }
  }

  lemma {:induction false} DiffPlain(lines: seq<DiffLine>)
    requires forall i :: 0 <= i < |lines| ==> PrintableDiffLine(lines[i])
    ensures AllPlain(RenderDiff(lines))
  {
    hide PlainLine, PrintableDiffLine;
    if lines == [] {
    } else {
      DiffLinePlain(lines[0]);
      assert forall i :: 0 <= i < |lines| - 1 ==> lines[1..][i] == lines[i + 1];
      DiffPlain(lines[1..]);
    }
  }

  lemma HeadPlain(head: ChunkHead)
    requires head.ContextHead? ==> PlainLine(head.context)
    ensures AllPlain(RenderHead(head))
  {
    if head.ContextHead? {
      PrefixedPlain("@@ ", head.context);
    }
  }

  lemma MarkersPlain()
    ensures PlainLine(EOF_MARKER) && PlainLine(BEGIN_PATCH_MARKER) && PlainLine(END_PATCH_MARKER)
  {
  }

  lemma ChunkPlain(chunk: ChunkDoc, first: bool)
    requires PrintableChunk(chunk, first)
    ensures AllPlain(RenderChunk(chunk))
  {
    hide PlainLine, PrintableDiffLine, IsBlank;
    HeadPlain(chunk.head);
    DiffPlain(chunk.lines);
    assert AllPlain(if chunk.eof then [EOF_MARKER] else []) by { MarkersPlain(); }
    AllPlainConcat(RenderHead(chunk.head), RenderDiff(chunk.lines));
    AllPlainConcat(RenderHead(chunk.head) + RenderDiff(chunk.lines), if chunk.eof then [EOF_MARKER] else []);
  }

  lemma {:induction false} ChunksPlain(chunks: seq<ChunkDoc>, first: bool)
    requires PrintableChunks(chunks, first)
    ensures AllPlain(RenderChunks(chunks))
  {
    hide PlainLine, PrintableChunk, RenderChunk;
    if chunks == [] {
    } else {
      ChunkPlain(chunks[0], first);
      ChunksPlain(chunks[1..], false);
      AllPlainConcat(RenderChunk(chunks[0]), RenderChunks(chunks[1..]));
    }
  }

  lemma {:induction false} AddedPlain(lines: seq<string>)
    requires AllPlain(lines)
    ensures AllPlain(RenderAdded(lines))
  {
    if lines == [] {
    } else {
      PrefixedPlain("+", lines[0]);
      hide PlainLine;
      AddedPlain(lines[1..]);
    }
  }

  lemma HunkPlain(hunk: HunkDoc)
    requires PrintableHunk(hunk)
    ensures AllPlain(RenderHunk(hunk))
  {
    hide PrintableChunks, RenderChunks;
    PathPlain(hunk.path);
    match hunk
    case AddDoc(path, lines) =>
      PrefixedPlain(ADD_FILE_MARKER, path);
      AddedPlain(lines);
      hide PlainLine;
      AllPlainConcat([ADD_FILE_MARKER + path], RenderAdded(lines));
    case DeleteDoc(path) =>
      PrefixedPlain(DELETE_FILE_MARKER, path);
    case UpdateDoc(path, movePath, chunks) =>
      PrefixedPlain(UPDATE_FILE_MARKER, path);
      var moved := if movePath.Some? then [MOVE_TO_MARKER + movePath.value] else [];
      if movePath.Some? {
        PrefixedPlain(MOVE_TO_MARKER, movePath.value);
      }
      ChunksPlain(chunks, true);
      hide PlainLine;
      AllPlainConcat([UPDATE_FILE_MARKER + path], moved);
      AllPlainConcat([UPDATE_FILE_MARKER + path] + moved, RenderChunks(chunks));
  }

  lemma {:induction false} HunksPlain(hunks: seq<HunkDoc>)
    requires Printable(hunks)
    ensures AllPlain(RenderHunks(hunks))
  {
    hide PlainLine, PrintableHunk, RenderHunk;
    if hunks == [] {
    } else {
      assert forall i :: 0 <= i < |hunks| - 1 ==> hunks[1..][i] == hunks[i + 1];
      HunkPlain(hunks[0]);
      HunksPlain(hunks[1..]);
      AllPlainConcat(RenderHunk(hunks[0]), RenderHunks(hunks[1..]));
    }
  }

  lemma RenderedPlain(hunks: seq<HunkDoc>)
    requires Printable(hunks)
    ensures AllPlain(RenderLines(hunks))
  {
    HunksPlain(hunks);
    MarkersPlain();
    hide PlainLine;
    AllPlainConcat([BEGIN_PATCH_MARKER], RenderHunks(hunks));
    AllPlainConcat([BEGIN_PATCH_MARKER] + RenderHunks(hunks), [END_PATCH_MARKER]);
  }

  // ---------- Texts with whitespace around them ----------

  /** Joined lines whose first and last lines do not begin or end in whitespace. */
  lemma JoinTrimmed(first: string, middle: seq<string>, last: string)
    requires first != "" && !IsWhitespace(first[0])
    requires last != "" && !IsWhitespace(last[|last| - 1])
    ensures Trimmed(Join([first] + middle + [last], "\n"))
  {
    var text := Join([first] + middle + [last], "\n");
    JoinSnoc([first] + middle, last, '\n');
    assert text == Join([first] + middle, "\n") + "\n" + last;
    assert text[|text| - 1] == last[|last| - 1];
    assert ([first] + middle)[1..] == middle;
    assert Join([first] + middle, "\n")[0] == first[0];
  }

  lemma LinesOfPadded(lead: string, first: string, middle: seq<string>, last: string, trail: string)
    requires AllWhitespace(lead) && AllWhitespace(trail)
    requires first != "" && !IsWhitespace(first[0])
    requires last != "" && !IsWhitespace(last[|last| - 1])
    requires AllPlain([first] + middle + [last])
    ensures Lines(Trim(lead + Join([first] + middle + [last], "\n") + trail)) == [first] + middle + [last]
  {
    hide PlainLine;
    var lines := [first] + middle + [last];
    JoinTrimmed(first, middle, last);
    TrimPadded(lead, Join(lines, "\n"), trail);
    LinesOfJoin(lines);
  }

  lemma BoundariesOk(hunks: seq<HunkDoc>)
    ensures StrictBoundaryError(RenderLines(hunks)).None?
    ensures |RenderLines(hunks)| == |RenderHunks(hunks)| + 2
    ensures RenderLines(hunks)[1..|RenderLines(hunks)| - 1] == RenderHunks(hunks)
  {
    TrimOfTrimmed(BEGIN_PATCH_MARKER);
    TrimOfTrimmed(END_PATCH_MARKER);
  }

  lemma ParseBody(hunks: seq<HunkDoc>, patch: string, mode: ParseMode)
    requires Printable(hunks)
    requires PatchLines(Lines(Trim(patch)), mode) == Success(RenderLines(hunks))
    ensures ParseText(patch, mode) == Success(PatchArgs(Meanings(hunks), RenderText(hunks)))
  {
    hide ParseHunks, PatchLines, Lines, Trim, RenderLines, Printable;
    BoundariesOk(hunks);
    ParseRenderedHunks(hunks, 2);
  }

  /** Parsing a rendered patch, with any whitespace around it and in either mode, gives back what the
      document means and the text itself. */
  lemma ParseOfRender(hunks: seq<HunkDoc>, lead: string, trail: string, mode: ParseMode)
    requires Printable(hunks) && AllWhitespace(lead) && AllWhitespace(trail)
    ensures ParseText(lead + RenderText(hunks) + trail, mode) ==
            Success(PatchArgs(Meanings(hunks), RenderText(hunks)))
  {
    RenderedPlain(hunks);
    LinesOfPadded(lead, BEGIN_PATCH_MARKER, RenderHunks(hunks), END_PATCH_MARKER, trail);
    BoundariesOk(hunks);
    hide StrictBoundaryError, Lines, Trim, AllPlain, AllWhitespace;
    ParseBody(hunks, lead + RenderText(hunks) + trail, mode);
  }

  // ---------- Heredocs ----------

  function Heredoc(opener: string, text: string): string {
    opener + "\n" + text + "\n" + "EOF"
  }

  lemma HeredocJoin(opener: string, lines: seq<string>)
    requires |lines| >= 1
    ensures Join([opener] + lines + ["EOF"], "\n") == Heredoc(opener, Join(lines, "\n"))
  {
    JoinSnoc([opener] + lines, "EOF", '\n');
    assert ([opener] + lines)[1..] == lines;
    assert Join([opener] + lines, "\n") == opener + "\n" + Join(lines, "\n");
  }

  lemma OpenerFacts(opener: string)
    requires IsHeredocOpener(opener)
    ensures opener != "" && !IsWhitespace(opener[0]) && PlainLine(opener)
    ensures Trim(opener) != BEGIN_PATCH_MARKER
    ensures EndsWith("EOF", "EOF") && PlainLine("EOF")
  {
    assert Trimmed(opener) by {
      assert "<<EOF"[4] == 'F' && "<<'EOF'"[6] == '\'' && "<<\"EOF\""[6] == '"';
    }
    TrimOfTrimmed(opener);
    assert BEGIN_PATCH_MARKER[0] == '*';
  }

  lemma HeredocLines(opener: string, hunks: seq<HunkDoc>, lead: string, trail: string)
    requires IsHeredocOpener(opener) && Printable(hunks) && AllWhitespace(lead) && AllWhitespace(trail)
    ensures Lines(Trim(lead + Heredoc(opener, RenderText(hunks)) + trail)) == [opener] + RenderLines(hunks) + ["EOF"]
  {
    hide Printable, IsHeredocOpener, Lines, Trim, AllWhitespace, PlainLine, RenderLines;
    OpenerFacts(opener);
    RenderedPlain(hunks);
    assert |RenderLines(hunks)| >= 1 by { BoundariesOk(hunks); }
    HeredocJoin(opener, RenderLines(hunks));
    AllPlainConcat([opener], RenderLines(hunks));
    AllPlainConcat([opener] + RenderLines(hunks), ["EOF"]);
    LinesOfPadded(lead, opener, RenderLines(hunks), "EOF", trail);
  }

  /** The same patch inside a heredoc, as some models send it: lenient mode strips the wrapper and
      parses as before, strict mode rejects the first line. */
  lemma ParseOfHeredoc(opener: string, hunks: seq<HunkDoc>, lead: string, trail: string)
    requires IsHeredocOpener(opener) && Printable(hunks) && AllWhitespace(lead) && AllWhitespace(trail)
    ensures var patch := lead + Heredoc(opener, RenderText(hunks)) + trail;
            && ParseText(patch, Lenient) == Success(PatchArgs(Meanings(hunks), RenderText(hunks)))
            && ParseText(patch, Strict) == Failure(FirstLineNotBegin)
  {
    var patch := lead + Heredoc(opener, RenderText(hunks)) + trail;
    var lines := [opener] + RenderLines(hunks) + ["EOF"];
    HeredocLines(opener, hunks, lead, trail);
    OpenerFacts(opener);
    BoundariesOk(hunks);
    assert lines[1..|lines| - 1] == RenderLines(hunks);
    hide Lines, Trim, AllWhitespace, Printable, IsHeredocOpener, ParseHunks, RenderLines, Heredoc;
    assert StrictBoundaryError(lines) == Some(FirstLineNotBegin);
    assert PatchLines(Lines(Trim(patch)), Lenient) == Success(RenderLines(hunks));
    ParseBody(hunks, patch, Lenient);
  }

  // ---------- Printing hunks ----------

  function AsRemoved(lines: seq<string>): seq<DiffLine> {
    if lines == [] then [] else [Removed(lines[0])] + AsRemoved(lines[1..])
  }

  function AsAdded(lines: seq<string>): seq<DiffLine> {
    if lines == [] then [] else [Added(lines[0])] + AsAdded(lines[1..])
  }

  /** A chunk written as its removed lines followed by its added lines. */
  function DescribeChunk(chunk: Chunk): ChunkDoc {
    ChunkDoc(match chunk.changeContext case None => BareHead case Some(context) => ContextHead(context),
             AsRemoved(chunk.oldLines) + AsAdded(chunk.newLines),
             chunk.isEndOfFile)
  }

  function DescribeChunks(chunks: seq<Chunk>): seq<ChunkDoc> {
    if chunks == [] then [] else [DescribeChunk(chunks[0])] + DescribeChunks(chunks[1..])
  }

  /** The lines of an added file's contents. */
  function ContentLines(contents: string): seq<string> {
    var pieces := Split(contents, '\n');
    pieces[..|pieces| - 1]
  }

  function Describe(hunk: Hunk): HunkDoc {
    match hunk
    case AddFile(path, contents) => AddDoc(path, ContentLines(contents))
    case DeleteFile(path) => DeleteDoc(path)
    case UpdateFile(path, movePath, chunks) => UpdateDoc(path, movePath, DescribeChunks(chunks))
  }

  function DescribeAll(hunks: seq<Hunk>): seq<HunkDoc> {
    if hunks == [] then [] else [Describe(hunks[0])] + DescribeAll(hunks[1..])
  }

  function Print(hunks: seq<Hunk>): string {
    RenderText(DescribeAll(hunks))
  }

  predicate WellFormedChunk(chunk: Chunk) {
    && HasLines(chunk)
    && AllPlain(chunk.oldLines) && AllPlain(chunk.newLines)
    && (chunk.changeContext.Some? ==> PlainLine(chunk.changeContext.value))
  }

  /** Contents are lines that end in a newline and not in a carriage return; paths and chunks are as
      the grammar wants them. */
  predicate WellFormed(hunk: Hunk) {
    && PrintablePath(hunk.path)
    && (hunk.AddFile? ==>
          && (hunk.contents == "" || hunk.contents[|hunk.contents| - 1] == '\n')
          && AllPlain(ContentLines(hunk.contents)))
    && (hunk.UpdateFile? ==>
          && (hunk.movePath.Some? ==> PlainLine(hunk.movePath.value))
          && hunk.chunks != []
          && forall i :: 0 <= i < |hunk.chunks| ==> WellFormedChunk(hunk.chunks[i]))
  }

  lemma {:induction false} RemovedText(lines: seq<string>, rest: seq<DiffLine>)
    ensures OldText(AsRemoved(lines) + rest) == lines + OldText(rest)
    ensures NewText(AsRemoved(lines) + rest) == NewText(rest)
  {
    var all := AsRemoved(lines) + rest;
    if lines == [] {
      assert all == rest;
    } else {
      RemovedText(lines[1..], rest);
      assert all[0] == Removed(lines[0]);
      assert all[1..] == AsRemoved(lines[1..]) + rest;
    }
  }

  lemma {:induction false} AddedText(lines: seq<string>)
    ensures OldText(AsAdded(lines)) == [] && NewText(AsAdded(lines)) == lines
  {
    if lines == [] {
    } else {
      AddedText(lines[1..]);
      assert AsAdded(lines)[1..] == AsAdded(lines[1..]);
    }
  }

  predicate AllPrintable(lines: seq<DiffLine>) {
    forall i :: 0 <= i < |lines| ==> PrintableDiffLine(lines[i])
  }

  lemma {:induction false} RemovedPrintable(lines: seq<string>)
    requires AllPlain(lines)
    ensures AllPrintable(AsRemoved(lines)) && |AsRemoved(lines)| == |lines|
  {
    hide PlainLine;
    if lines == [] {
    } else {
      RemovedPrintable(lines[1..]);
    }
  }

  lemma {:induction false} AddedPrintable(lines: seq<string>)
    requires AllPlain(lines)
    ensures AllPrintable(AsAdded(lines)) && |AsAdded(lines)| == |lines|
  {
    hide PlainLine;
    if lines == [] {
    } else {
      AddedPrintable(lines[1..]);
    }
  }

  lemma DescribeChunkCorrect(chunk: Chunk, first: bool)
    requires WellFormedChunk(chunk)
    ensures ChunkMeaning(DescribeChunk(chunk)) == chunk && PrintableChunk(DescribeChunk(chunk), first)
  {
    hide PlainLine, IsBlank, PrintableDiffLine;
    RemovedText(chunk.oldLines, AsAdded(chunk.newLines));
    AddedText(chunk.newLines);
    RemovedPrintable(chunk.oldLines);
    AddedPrintable(chunk.newLines);
    assert chunk.oldLines + [] == chunk.oldLines;
  }

  lemma {:induction false} DescribeChunksCorrect(chunks: seq<Chunk>, first: bool)
    requires forall i :: 0 <= i < |chunks| ==> WellFormedChunk(chunks[i])
    ensures ChunkMeanings(DescribeChunks(chunks)) == chunks && PrintableChunks(DescribeChunks(chunks), first)
    ensures |DescribeChunks(chunks)| == |chunks|
  {
    hide WellFormedChunk, PrintableChunk, ChunkMeaning, DescribeChunk;
    if chunks == [] {
    } else {
      DescribeChunkCorrect(chunks[0], first);
      assert forall i :: 0 <= i < |chunks| - 1 ==> chunks[1..][i] == chunks[i + 1];
      DescribeChunksCorrect(chunks[1..], false);
      assert DescribeChunks(chunks)[1..] == DescribeChunks(chunks[1..]);
    }
  }

  lemma {:induction false} UnlinesIsJoin(lines: seq<string>)
    ensures Unlines(lines) == Join(lines + [""], "\n")
  {
    if lines == [] {
    } else {
      assert (lines + [""])[1..] == lines[1..] + [""];
      UnlinesIsJoin(lines[1..]);
    }
  }

  lemma {:induction false} LastPieceEmpty(s: string)
    requires s == "" || s[|s| - 1] == '\n'
    ensures var pieces := Split(s, '\n'); pieces[|pieces| - 1] == ""
  {
    if s == "" {
    } else {
      if |s| == 1 {
        assert s[1..] == "";
      } else {
        assert s[1..][|s[1..]| - 1] == '\n';
        LastPieceEmpty(s[1..]);
        var rest := Split(s[1..], '\n');
        if s[0] != '\n' && |rest| == 1 {
          JoinSplit(s[1..], '\n');
        }
      }
    }
  }

  lemma ContentsOfLines(contents: string)
    requires contents == "" || contents[|contents| - 1] == '\n'
    ensures Unlines(ContentLines(contents)) == contents
  {
    LastPieceEmpty(contents);
    var pieces := Split(contents, '\n');
    assert pieces == ContentLines(contents) + [""];
    UnlinesIsJoin(ContentLines(contents));
    JoinSplit(contents, '\n');
  }

  lemma DescribeCorrect(hunk: Hunk)
    requires WellFormed(hunk)
    ensures Meaning(Describe(hunk)) == hunk && PrintableHunk(Describe(hunk))
  {
    hide PlainLine, WellFormedChunk, PrintableChunks, PrintablePath;
    match hunk
    case AddFile(path, contents) => ContentsOfLines(contents);
    case DeleteFile(path) =>
    case UpdateFile(path, movePath, chunks) => DescribeChunksCorrect(chunks, true);
  }

  lemma {:induction false} DescribeAllCorrect(hunks: seq<Hunk>)
    requires forall i :: 0 <= i < |hunks| ==> WellFormed(hunks[i])
    ensures Meanings(DescribeAll(hunks)) == hunks && Printable(DescribeAll(hunks))
  {
    hide WellFormed, PrintableHunk, Meaning, Describe;
    if hunks == [] {
    } else {
      DescribeCorrect(hunks[0]);
      assert forall i :: 0 <= i < |hunks| - 1 ==> hunks[1..][i] == hunks[i + 1];
      DescribeAllCorrect(hunks[1..]);
      assert DescribeAll(hunks) == [Describe(hunks[0])] + DescribeAll(hunks[1..]);
      assert DescribeAll(hunks)[1..] == DescribeAll(hunks[1..]);
    }
  }

  lemma PrintIsRender(hunks: seq<Hunk>)
    ensures Print(hunks) == RenderText(DescribeAll(hunks))
  {
  }

  /** Printing well-formed hunks and parsing the text gives back the same hunks, also through a
      heredoc in lenient mode. */
  lemma ParseOfPrint(hunks: seq<Hunk>, opener: string, lead: string, trail: string, mode: ParseMode)
    requires forall i :: 0 <= i < |hunks| ==> WellFormed(hunks[i])
    requires IsHeredocOpener(opener) && AllWhitespace(lead) && AllWhitespace(trail)
    ensures ParseText(lead + Print(hunks) + trail, mode) == Success(PatchArgs(hunks, Print(hunks)))
    ensures ParseText(lead + Heredoc(opener, Print(hunks)) + trail, Lenient) ==
            Success(PatchArgs(hunks, Print(hunks)))
  {
    DescribeAllCorrect(hunks);
    hide *;
    PrintIsRender(hunks);
    ParseOfRender(DescribeAll(hunks), lead, trail, mode);
    ParseOfHeredoc(opener, DescribeAll(hunks), lead, trail);
  }
}
