/** The patch grammar as a document type: what can be written, how it is rendered as text, and what
    it means. Parsing a rendered document gives its meaning. */
module PatchRoundTrip {
  import opened Wrappers
  import opened Text
  import opened PatchSyntax
  import opened PatchParser

  // ---------- Documents ----------

  datatype DiffLine = Context(text: string) | Blank | Added(text: string) | Removed(text: string)

  datatype ChunkHead = NoHead | BareHead | ContextHead(context: string)

  datatype ChunkDoc = ChunkDoc(head: ChunkHead, lines: seq<DiffLine>, eof: bool)

  datatype HunkDoc =
    | AddDoc(path: string, lines: seq<string>)
    | DeleteDoc(path: string)
    | UpdateDoc(path: string, movePath: Option<string>, chunks: seq<ChunkDoc>)

  // ---------- Rendering ----------

  function RenderDiffLine(line: DiffLine): string {
    match line
    case Context(text) => " " + text
    case Blank => ""
    case Added(text) => "+" + text
    case Removed(text) => "-" + text
  }

  function RenderDiff(lines: seq<DiffLine>): seq<string> {
    if lines == [] then [] else [RenderDiffLine(lines[0])] + RenderDiff(lines[1..])
  }

  function RenderHead(head: ChunkHead): seq<string> {
    match head
    case NoHead => []
    case BareHead => [EMPTY_CHANGE_CONTEXT_MARKER]
    case ContextHead(context) => [CHANGE_CONTEXT_MARKER + context]
  }

  function RenderChunk(chunk: ChunkDoc): seq<string> {
    RenderHead(chunk.head) + RenderDiff(chunk.lines) + (if chunk.eof then [EOF_MARKER] else [])
  }

  function RenderChunks(chunks: seq<ChunkDoc>): seq<string> {
    if chunks == [] then [] else RenderChunk(chunks[0]) + RenderChunks(chunks[1..])
  }

  function RenderAdded(lines: seq<string>): seq<string> {
    if lines == [] then [] else ["+" + lines[0]] + RenderAdded(lines[1..])
  }

  function RenderHunk(hunk: HunkDoc): seq<string> {
    match hunk
    case AddDoc(path, lines) => [ADD_FILE_MARKER + path] + RenderAdded(lines)
    case DeleteDoc(path) => [DELETE_FILE_MARKER + path]
    case UpdateDoc(path, movePath, chunks) =>
      [UPDATE_FILE_MARKER + path]
      + (if movePath.Some? then [MOVE_TO_MARKER + movePath.value] else [])
      + RenderChunks(chunks)
  }

  function RenderHunks(hunks: seq<HunkDoc>): seq<string> {
    if hunks == [] then [] else RenderHunk(hunks[0]) + RenderHunks(hunks[1..])
  }

  function RenderLines(hunks: seq<HunkDoc>): seq<string> {
    [BEGIN_PATCH_MARKER] + RenderHunks(hunks) + [END_PATCH_MARKER]
  }

  function RenderText(hunks: seq<HunkDoc>): string {
    Join(RenderLines(hunks), "\n")
  }

  // ---------- Meaning ----------

  function OldText(lines: seq<DiffLine>): seq<string> {
    if lines == [] then []
    else
      var rest := OldText(lines[1..]);
      match lines[0]
      case Context(text) => [text] + rest
      case Blank => [""] + rest
      case Removed(text) => [text] + rest
      case Added(_) => rest
  }

  function NewText(lines: seq<DiffLine>): seq<string> {
    if lines == [] then []
    else
      var rest := NewText(lines[1..]);
      match lines[0]
      case Context(text) => [text] + rest
      case Blank => [""] + rest
      case Added(text) => [text] + rest
      case Removed(_) => rest
  }

  function ChunkMeaning(chunk: ChunkDoc): Chunk {
    Chunk(if chunk.head.ContextHead? then Some(chunk.head.context) else None,
          OldText(chunk.lines), NewText(chunk.lines), chunk.eof)
  }

  function ChunkMeanings(chunks: seq<ChunkDoc>): seq<Chunk> {
    if chunks == [] then [] else [ChunkMeaning(chunks[0])] + ChunkMeanings(chunks[1..])
  }

  /** The lines, each ended by a newline. */
  function Unlines(lines: seq<string>): string {
    if lines == [] then "" else lines[0] + "\n" + Unlines(lines[1..])
  }

  function Meaning(hunk: HunkDoc): Hunk {
    match hunk
    case AddDoc(path, lines) => AddFile(path, Unlines(lines))
    case DeleteDoc(path) => DeleteFile(path)
    case UpdateDoc(path, movePath, chunks) => UpdateFile(path, movePath, ChunkMeanings(chunks))
  }

  function Meanings(hunks: seq<HunkDoc>): seq<Hunk> {
    if hunks == [] then [] else [Meaning(hunks[0])] + Meanings(hunks[1..])
  }

  // ---------- What can be written ----------

  /** Header lines are trimmed, so a path is not empty and does not end in whitespace. */
  predicate PrintablePath(path: string) {
    path != "" && !IsWhitespace(path[|path| - 1]) && '\n' !in path
  }

  predicate PrintableDiffLine(line: DiffLine) {
    line.Blank? || PlainLine(line.text)
  }

  /** Only the first chunk may go without a header, and then its first line must not look blank. */
  predicate PrintableChunk(chunk: ChunkDoc, first: bool) {
    && chunk.lines != []
    && (forall i :: 0 <= i < |chunk.lines| ==> PrintableDiffLine(chunk.lines[i]))
    && (chunk.head.ContextHead? ==> PlainLine(chunk.head.context))
    && (chunk.head.NoHead? ==> first && !IsBlank(RenderDiffLine(chunk.lines[0])))
  }

  predicate PrintableChunks(chunks: seq<ChunkDoc>, first: bool) {
    chunks == [] || (PrintableChunk(chunks[0], first) && PrintableChunks(chunks[1..], false))
  }

  predicate PrintableHunk(hunk: HunkDoc) {
    && PrintablePath(hunk.path)
    && (hunk.AddDoc? ==> forall l :: l in hunk.lines ==> PlainLine(l))
    && (hunk.UpdateDoc? ==>
          && (hunk.movePath.Some? ==> PlainLine(hunk.movePath.value))
          && hunk.chunks != []
          && PrintableChunks(hunk.chunks, true))
  }

  predicate Printable(hunks: seq<HunkDoc>) {
    forall i :: 0 <= i < |hunks| ==> PrintableHunk(hunks[i])
  }

  // ---------- Parsing what was rendered ----------

  /** What may follow the lines of a chunk without being taken for one of them. */
  predicate StopsDiff(rest: seq<string>) {
    rest == [] || (!IsDiffLine(rest[0]) && rest[0] != EOF_MARKER)
  }

  lemma ParseDiffLine(line: DiffLine, rest: seq<string>)
    ensures var text := RenderDiffLine(line);
            && IsDiffLine(text) && text != EOF_MARKER
            && AddDiffLine(text, ReadDiff(rest)) ==
               Diff((if line.Added? then [] else [if line.Blank? then "" else line.text]) + ReadDiff(rest).oldLines,
                    (if line.Removed? then [] else [if line.Blank? then "" else line.text]) + ReadDiff(rest).newLines,
                    ReadDiff(rest).eof, ReadDiff(rest).count + 1)
  {
    hide ReadDiff;
    assert EOF_MARKER[0] == '*';
    var text := RenderDiffLine(line);
    if !line.Blank? {
      assert text[1..] == line.text;
    }
  }

  lemma {:induction false} ParseDiff(lines: seq<DiffLine>, eof: bool, rest: seq<string>)
    requires eof || StopsDiff(rest)
    ensures ReadDiff(RenderDiff(lines) + (if eof then [EOF_MARKER] else []) + rest) ==
            Diff(OldText(lines), NewText(lines), eof, |lines| + if eof then 1 else 0)
  {
    var tail := (if eof then [EOF_MARKER] else []) + rest;
    if lines == [] {
      assert RenderDiff(lines) + (if eof then [EOF_MARKER] else []) + rest == tail;
    } else {
      ParseDiff(lines[1..], eof, rest);
      var more := RenderDiff(lines[1..]) + (if eof then [EOF_MARKER] else []) + rest;
      var all := RenderDiff(lines) + (if eof then [EOF_MARKER] else []) + rest;
      assert all == [RenderDiffLine(lines[0])] + more;
      assert all[1..] == more;
      ParseDiffLine(lines[0], more);
    }
  }

  lemma {:induction false} TrimEndKeepsFirst(s: string)
    requires s != "" && !IsWhitespace(s[0])
    ensures TrimEnd(s) != "" && TrimEnd(s)[0] == s[0]
  {
    if IsWhitespace(s[|s| - 1]) {
      TrimEndKeepsFirst(s[..|s| - 1]);
    }
  }

  lemma NotBlank(line: string)
    requires line != "" && !IsWhitespace(line[0])
    ensures !IsBlank(line)
  {
    TrimEndKeepsFirst(line);
  }

  lemma EmptyIsBlank()
    ensures IsBlank("")
  {
  }

  /** The first line of a rendered chunk starts neither a hunk nor a blank stretch, and with a header
      it is no diff line either. */
  lemma ChunkFirstLine(chunk: ChunkDoc, first: bool, rest: seq<string>)
    requires PrintableChunk(chunk, first)
    ensures var lines := RenderChunk(chunk) + rest;
            && lines != [] && lines[0] != "" && lines[0][0] != '*'
            && !IsBlank(lines[0]) && !EndsUpdate(lines[0])
            && (!first ==> StopsDiff(lines))
  {
    hide IsBlank, Trim;
    var lines := RenderChunk(chunk) + rest;
    match chunk.head
    case NoHead =>
      assert lines[0] == RenderDiffLine(chunk.lines[0]);
      EmptyIsBlank();
    case BareHead =>
      assert lines[0] == "@@";
      NotBlank(lines[0]);
      assert EOF_MARKER[0] == '*';
    case ContextHead(context) =>
      assert lines[0] == "@@ " + context;
      NotBlank(lines[0]);
      assert EOF_MARKER[0] == '*';
  }

  lemma DropHead(head: seq<string>, diff: seq<string>, end: seq<string>, rest: seq<string>)
    ensures |head| <= |head + diff + end + rest|
    ensures (head + diff + end + rest)[|head|..] == diff + end + rest
  {
  }

  lemma ParseRenderedHead(chunk: ChunkDoc, first: bool, rest: seq<string>, lineNumber: nat)
    requires PrintableChunk(chunk, first)
    ensures var lines := RenderChunk(chunk) + rest;
            && lines != []
            && ChunkHeader(lines[0], lineNumber, first) ==
               Success((ChunkMeaning(chunk).changeContext, |RenderHead(chunk.head)|))
  {
    hide IsBlank, Trim, OldText, NewText, IsDiffLine, EndsUpdate;
    ChunkFirstLine(chunk, first, rest);
    var lines := RenderChunk(chunk) + rest;
    match chunk.head
    case NoHead =>
      assert lines[0] == RenderDiffLine(chunk.lines[0]);
      assert lines[0][0] != '@';
    case BareHead =>
      assert lines[0] == "@@";
    case ContextHead(context) =>
      assert lines[0] == CHANGE_CONTEXT_MARKER + context;
      assert (CHANGE_CONTEXT_MARKER + context)[|CHANGE_CONTEXT_MARKER|..] == context;
      assert |lines[0]| >= 3;
  }

  lemma {:induction false} RenderDiffLength(lines: seq<DiffLine>)
    ensures |RenderDiff(lines)| == |lines|
    ensures lines != [] ==> RenderDiff(lines)[0] == RenderDiffLine(lines[0])
  {
    if lines == [] {
    } else {
      RenderDiffLength(lines[1..]);
    }
  }

  lemma PrintableChunkHasLines(chunk: ChunkDoc, first: bool)
    requires PrintableChunk(chunk, first)
    ensures chunk.lines != []
  {
  }

  lemma ParseRenderedChunk(chunk: ChunkDoc, first: bool, rest: seq<string>, lineNumber: nat)
    requires PrintableChunk(chunk, first)
    requires chunk.eof || StopsDiff(rest)
    ensures ParseChunk(RenderChunk(chunk) + rest, lineNumber, first) ==
            Success((ChunkMeaning(chunk), |RenderChunk(chunk)|))
  {
    hide ReadDiff, ChunkHeader, PrintableChunk, OldText, NewText;
    var body := RenderDiff(chunk.lines) + (if chunk.eof then [EOF_MARKER] else []) + rest;
    ParseRenderedHead(chunk, first, rest, lineNumber);
    DropHead(RenderHead(chunk.head), RenderDiff(chunk.lines), if chunk.eof then [EOF_MARKER] else [], rest);
    ParseDiff(chunk.lines, chunk.eof, rest);
    RenderDiffLength(chunk.lines);
    assert chunk.lines != [] by { PrintableChunkHasLines(chunk, first); }
    assert body[0] == RenderDiffLine(chunk.lines[0]);
    ParseDiffLine(chunk.lines[0], []);
    assert ReadFirstDiff(body, lineNumber + 1) == Success(ReadDiff(body));
  }

  /** What may follow an update hunk: nothing, or the header of another hunk. */
  predicate HunkBoundary(rest: seq<string>) {
    rest == [] || (EndsUpdate(rest[0]) && rest[0] != EOF_MARKER)
  }

  lemma BoundaryStops(rest: seq<string>)
    requires HunkBoundary(rest)
    ensures StopsDiff(rest) && (rest != [] ==> !IsBlank(rest[0]))
  {
    if rest != [] {
      NotBlank(rest[0]);
    }
  }

  lemma ParseChunkThen(lines: seq<string>, rendered: seq<string>, tail: seq<string>, first: bool, lineNumber: nat)
    requires lines == rendered + tail && lines != [] && !IsBlank(lines[0]) && !EndsUpdate(lines[0])
    requires ParseChunk(lines, lineNumber, first).Success?
    requires ParseChunk(lines, lineNumber, first).value.1 == |rendered|
    ensures ParseChunks(lines, lineNumber, first) ==
            PushedChunks([ParseChunk(lines, lineNumber, first).value.0], |rendered|,
                         ParseChunks(tail, lineNumber + |rendered|, false))
  {
    hide ParseChunk, ParseChunks, IsBlank, EndsUpdate;
    ParseChunksStep(lines, lineNumber, first);
    assert lines[|rendered|..] == tail;
  }

  lemma NoChunksAtBoundary(rest: seq<string>, first: bool, lineNumber: nat)
    requires HunkBoundary(rest)
    ensures ParseChunks(rest, lineNumber, first) == Success(([], 0))
  {
    hide ParseChunk;
    BoundaryStops(rest);
  }

  lemma {:induction false} ParseRenderedChunks(chunks: seq<ChunkDoc>, first: bool, rest: seq<string>, lineNumber: nat)
    requires PrintableChunks(chunks, first) && HunkBoundary(rest)
    ensures ParseChunks(RenderChunks(chunks) + rest, lineNumber, first) ==
            Success((ChunkMeanings(chunks), |RenderChunks(chunks)|))
  {
    hide ParseChunk, ParseChunks, IsBlank, EndsUpdate, PrintableChunk, StopsDiff, HunkBoundary, RenderChunk;
    var lines := RenderChunks(chunks) + rest;
    if chunks == [] {
      assert lines == rest;
      NoChunksAtBoundary(rest, first, lineNumber);
    } else {
      var chunk, others := chunks[0], chunks[1..];
      var tail := RenderChunks(others) + rest;
      assert lines == RenderChunk(chunk) + tail;
      assert StopsDiff(tail) by {
        if others == [] {
          assert tail == rest;
          BoundaryStops(rest);
        } else {
          assert tail == RenderChunk(others[0]) + (RenderChunks(others[1..]) + rest);
          ChunkFirstLine(others[0], false, RenderChunks(others[1..]) + rest);
        }
      }
      ChunkFirstLine(chunk, first, tail);
      ParseRenderedChunk(chunk, first, tail, lineNumber);
      ParseRenderedChunks(others, false, rest, lineNumber + |RenderChunk(chunk)|);
      ParseChunkThen(lines, RenderChunk(chunk), tail, first, lineNumber);
    }
  }

  lemma {:induction false} ParseRenderedAdded(lines: seq<string>, rest: seq<string>)
    requires rest == [] || !("+" <= rest[0])
    ensures ReadAddedLines(RenderAdded(lines) + rest) == (Unlines(lines), |lines|)
    ensures |RenderAdded(lines)| == |lines|
  {
    var all := RenderAdded(lines) + rest;
    if lines == [] {
      assert all == rest;
    } else {
      ParseRenderedAdded(lines[1..], rest);
      assert all[0] == "+" + lines[0] && all[0][1..] == lines[0];
      assert all[1..] == RenderAdded(lines[1..]) + rest;
    }
  }

  /** A header line survives trimming, and its marker is recognised. */
  lemma HeaderLine(marker: string, path: string)
    requires PrintablePath(path)
    requires marker != "" && marker[0] == '*'
    ensures Trim(marker + path) == marker + path
    ensures marker <= marker + path && (marker + path)[|marker|..] == path
  {
    var line := marker + path;
    assert line[|line| - 1] == path[|path| - 1];
    TrimOfTrimmed(line);
  }

  lemma HunkStartsAtBoundary(hunk: HunkDoc, rest: seq<string>)
    ensures HunkBoundary(RenderHunk(hunk) + rest) && RenderHunk(hunk) + rest != []
  {
    var line := (RenderHunk(hunk) + rest)[0];
    match hunk
    case AddDoc(path, _) => assert line == ADD_FILE_MARKER + path; assert line[4] == 'A' && EOF_MARKER[4] == 'E';
    case DeleteDoc(path) => assert line == DELETE_FILE_MARKER + path; assert line[4] == 'D' && EOF_MARKER[4] == 'E';
    case UpdateDoc(path, _, _) =>
      assert line == UPDATE_FILE_MARKER + path; assert line[4] == 'U' && EOF_MARKER[4] == 'E';
  }

  lemma MarkersDiffer(path: string)
    ensures !(ADD_FILE_MARKER <= DELETE_FILE_MARKER + path)
    ensures !(ADD_FILE_MARKER <= UPDATE_FILE_MARKER + path)
    ensures !(DELETE_FILE_MARKER <= UPDATE_FILE_MARKER + path)
  {
    assert ADD_FILE_MARKER[4] == 'A';
    assert (DELETE_FILE_MARKER + path)[4] == 'D' && DELETE_FILE_MARKER[4] == 'D';
    assert (UPDATE_FILE_MARKER + path)[4] == 'U';
  }

  lemma StripMarker(marker: string, text: string)
    ensures StripPrefix(marker + text, marker) == Some(text)
  {
    assert (marker + text)[|marker|..] == text;
  }

  lemma NotTheMoveLine(chunk: ChunkDoc, rest: seq<string>)
    requires PrintableChunk(chunk, true)
    ensures RenderChunk(chunk) + rest != []
    ensures StripPrefix((RenderChunk(chunk) + rest)[0], MOVE_TO_MARKER) == None
  {
    ChunkFirstLine(chunk, true, rest);
    assert MOVE_TO_MARKER[0] == '*';
  }

  lemma RegroupLines(header: string, moved: seq<string>, body: seq<string>, rest: seq<string>)
    ensures [header] + moved + body + rest == [header] + moved + (body + rest)
    ensures ([header] + moved + body + rest)[1 + |moved|..] == body + rest
    ensures moved != [] ==> ([header] + moved + body + rest)[1] == moved[0]
    ensures moved == [] && body + rest != [] ==> ([header] + moved + body + rest)[1] == (body + rest)[0]
  {
  }

  /** The line after the header is the destination exactly when the document has one. */
  lemma RenderedMove(hunk: HunkDoc, rest: seq<string>)
    requires PrintableHunk(hunk) && hunk.UpdateDoc?
    ensures var lines := RenderHunk(hunk) + rest;
            && |lines| > 1
            && lines[0] == UPDATE_FILE_MARKER + hunk.path
            && StripPrefix(lines[1], MOVE_TO_MARKER) == hunk.movePath
            && lines[if hunk.movePath.Some? then 2 else 1..] == RenderChunks(hunk.chunks) + rest
  {
    hide PrintableChunk, RenderChunk, PrintablePath, StripPrefix;
    var moved := if hunk.movePath.Some? then [MOVE_TO_MARKER + hunk.movePath.value] else [];
    var chunk, others := hunk.chunks[0], RenderChunks(hunk.chunks[1..]) + rest;
    assert RenderChunks(hunk.chunks) + rest == RenderChunk(chunk) + others;
    RegroupLines(UPDATE_FILE_MARKER + hunk.path, moved, RenderChunks(hunk.chunks), rest);
    NotTheMoveLine(chunk, others);
    if hunk.movePath.Some? {
      StripMarker(MOVE_TO_MARKER, hunk.movePath.value);
    }
  }

  lemma UpdateHeader(path: string)
    requires PrintablePath(path)
    ensures var header := Trim(UPDATE_FILE_MARKER + path);
            && !(ADD_FILE_MARKER <= header) && !(DELETE_FILE_MARKER <= header)
            && UPDATE_FILE_MARKER <= header && header[|UPDATE_FILE_MARKER|..] == path
  {
    hide Trim;
    HeaderLine(UPDATE_FILE_MARKER, path);
    MarkersDiffer(path);
  }

  lemma ParseRenderedChanges(hunk: HunkDoc, rest: seq<string>, lineNumber: nat)
    requires PrintableHunk(hunk) && hunk.UpdateDoc? && HunkBoundary(rest)
    ensures RenderHunk(hunk) + rest != []
    ensures ParseUpdate(hunk.path, RenderHunk(hunk) + rest, lineNumber) ==
            Success((Meaning(hunk), |RenderHunk(hunk)|))
  {
    hide ParseChunks, HunkBoundary, PrintableChunk, RenderChunk, PrintablePath, StripPrefix;
    RenderedMove(hunk, rest);
    var skipped := if hunk.movePath.Some? then 2 else 1;
    ParseRenderedChunks(hunk.chunks, true, rest, lineNumber + skipped);
    assert |RenderHunk(hunk)| == skipped + |RenderChunks(hunk.chunks)|;
    assert ChunkMeanings(hunk.chunks) != [];
  }

  lemma ParseRenderedUpdate(hunk: HunkDoc, rest: seq<string>, lineNumber: nat)
    requires PrintableHunk(hunk) && hunk.UpdateDoc? && HunkBoundary(rest)
    ensures RenderHunk(hunk) + rest != []
    ensures ParseHunk(RenderHunk(hunk) + rest, lineNumber) == Success((Meaning(hunk), |RenderHunk(hunk)|))
  {
    hide Trim, ParseUpdate, HunkBoundary, RenderChunks, ParseChunks, PrintableChunk, PrintablePath;
    ParseRenderedChanges(hunk, rest, lineNumber);
    RenderedMove(hunk, rest);
    UpdateHeader(hunk.path);
    hide RenderHunk, PrintableHunk, Meaning;
  }

  lemma ParseRenderedHunk(hunk: HunkDoc, rest: seq<string>, lineNumber: nat)
    requires PrintableHunk(hunk) && HunkBoundary(rest)
    ensures RenderHunk(hunk) + rest != []
    ensures ParseHunk(RenderHunk(hunk) + rest, lineNumber) == Success((Meaning(hunk), |RenderHunk(hunk)|))
  {
    hide Trim, ParseChunks, PrintablePath;
    var lines := RenderHunk(hunk) + rest;
    match hunk
    case AddDoc(path, added) =>
      HeaderLine(ADD_FILE_MARKER, path);
      assert lines[0] == ADD_FILE_MARKER + path;
      assert lines[1..] == RenderAdded(added) + rest;
      ParseRenderedAdded(added, rest);
    case DeleteDoc(path) =>
      HeaderLine(DELETE_FILE_MARKER, path);
      MarkersDiffer(path);
      assert lines[0] == DELETE_FILE_MARKER + path;
    case UpdateDoc(path, movePath, chunks) =>
      ParseRenderedUpdate(hunk, rest, lineNumber);
  }

  lemma NothingIsBoundary()
    ensures HunkBoundary([])
  {
  }

  lemma {:induction false} ParseRenderedHunks(hunks: seq<HunkDoc>, lineNumber: nat)
    requires Printable(hunks)
    ensures ParseHunks(RenderHunks(hunks), lineNumber).Success?
    ensures ParseHunks(RenderHunks(hunks), lineNumber).value.0 == Meanings(hunks)
  {
    hide ParseHunk, PrintableHunk, HunkBoundary, RenderHunk;
    if hunks == [] {
    } else {
      var hunk, others := hunks[0], hunks[1..];
      var lines, tail := RenderHunks(hunks), RenderHunks(others);
      assert HunkBoundary(tail) by {
        if others != [] {
          HunkStartsAtBoundary(others[0], RenderHunks(others[1..]));
        } else {
          NothingIsBoundary();
        }
      }
      ParseRenderedHunk(hunk, tail, lineNumber);
      assert lines[|RenderHunk(hunk)|..] == tail;
      assert Printable(others) by {
        assert forall i :: 0 <= i < |others| ==> others[i] == hunks[i + 1];
      }
      ParseRenderedHunks(others, lineNumber + |RenderHunk(hunk)|);
    }
  }
}
