/** From the text of a patch to the files it leaves: patches with one hunk, written out in full. */
module PatchEndToEnd {
  import opened Wrappers
  import opened Text
  import opened PatchSyntax
  import opened PatchParser
  import opened PatchRoundTrip
  import opened PatchText
  import opened UpdateFile
  import opened FileContents
  import opened NoOpPatches
  import opened PatchApplication
  import opened PatchFiles
  import opened PatchEffects

  // ---------- Texts ----------

  /** The lines, each after the mark. */
  function Marked(mark: string, lines: seq<string>): (marked: seq<string>) {
    if lines == [] then [] else [mark + lines[0]] + Marked(mark, lines[1..])
  }

  /** The text of a patch with these lines between its markers. */
  function PatchOf(body: seq<string>): string {
    Join(["*** Begin Patch"] + body + ["*** End Patch"], "\n")
  }

  function FileOf(lines: seq<string>): string {
    Join(lines + [""], "\n")
  }

  /** The files after the patch was parsed and executed, if both succeed. */
  function After(files: Files, cwd: Path, patch: string, mode: ParseMode): Option<Files> {
    match ParseText(patch, mode)
    case Failure(_) => None
    case Success(args) =>
      var (after, outcome) := Execute(files, cwd, args.hunks);
      if outcome.Success? then Some(after) else None
  }

  // ---------- Documents ----------

  lemma {:induction false} MarkedAdded(lines: seq<string>)
    ensures RenderAdded(lines) == Marked("+", lines)
  {
    if lines == [] {
    } else {
      MarkedAdded(lines[1..]);
    }
  }

  lemma {:induction false} MarkedDiff(removed: seq<string>, added: seq<string>)
    ensures RenderDiff(AsRemoved(removed) + AsAdded(added)) == Marked("-", removed) + Marked("+", added)
    ensures OldText(AsRemoved(removed) + AsAdded(added)) == removed
    ensures NewText(AsRemoved(removed) + AsAdded(added)) == added
    decreases |removed| + |added|
  {
    var all := AsRemoved(removed) + AsAdded(added);
    if removed != [] {
      assert all[1..] == AsRemoved(removed[1..]) + AsAdded(added);
      MarkedDiff(removed[1..], added);
      assert [removed[0]] + removed[1..] == removed;
    } else if added != [] {
      assert all[1..] == AsRemoved([]) + AsAdded(added[1..]);
      MarkedDiff([], added[1..]);
      assert [added[0]] + added[1..] == added;
    }
  }

  lemma {:induction false} AsAddedLines(lines: seq<string>)
    requires AllPlain(lines)
    ensures forall l :: l in AsAdded(lines) ==> PrintableDiffLine(l)
    ensures forall l :: l in AsRemoved(lines) ==> PrintableDiffLine(l)
    ensures |AsRemoved(lines)| == |lines|
  {
    if lines == [] {
    } else {
      assert lines[0] in lines;
      assert forall l :: l in lines[1..] ==> l in lines;
      AsAddedLines(lines[1..]);
    }
  }

  lemma ParseOfOne(hunk: HunkDoc, patch: string, mode: ParseMode)
    requires PrintableHunk(hunk) && patch == PatchOf(RenderHunk(hunk))
    ensures ParseText(patch, mode) == Success(PatchArgs([Meaning(hunk)], patch))
  {
    hide PrintableHunk, RenderHunk, Meaning, ParseText;
    assert [hunk][1..] == [];
    assert RenderHunks([]) == [] && Meanings([]) == [];
    assert RenderHunks([hunk]) == RenderHunk(hunk) + [];
    assert RenderHunk(hunk) + [] == RenderHunk(hunk);
    assert Meanings([hunk]) == [Meaning(hunk)] + [];
    assert [Meaning(hunk)] + [] == [Meaning(hunk)];
    assert RenderText([hunk]) == patch;
    assert "" + patch + "" == patch;
    ParseOfRender([hunk], "", "", mode);
  }

  lemma DiffCons(line: DiffLine, rest: seq<DiffLine>)
    ensures RenderDiff([line] + rest) == [RenderDiffLine(line)] + RenderDiff(rest)
    ensures OldText([line] + rest) ==
            (if line.Added? then [] else if line.Blank? then [""] else [line.text]) + OldText(rest)
    ensures NewText([line] + rest) ==
            (if line.Removed? then [] else if line.Blank? then [""] else [line.text]) + NewText(rest)
  {
    assert ([line] + rest)[1..] == rest;
  }

  lemma DiffAsWritten(kept: string, removed: string, added: string)
    ensures var lines := [Context(kept), Removed(removed), PatchRoundTrip.Added(added), Blank];
            && RenderDiff(lines) == [" " + kept, "-" + removed, "+" + added, ""]
            && OldText(lines) == [kept, removed, ""] && NewText(lines) == [kept, added, ""]
  {
    var a, b, c, e := Context(kept), Removed(removed), PatchRoundTrip.Added(added), Blank;
    assert [e] + [] == [e] && [c] + [e] == [c, e] && [b] + [c, e] == [b, c, e] && [a] + [b, c, e] == [a, b, c, e];
    DiffCons(e, []);
    DiffCons(c, [e]);
    DiffCons(b, [c, e]);
    DiffCons(a, [b, c, e]);
  }

  function SampleChunk(context: string, kept: string, removed: string, added: string): ChunkDoc {
    ChunkDoc(ContextHead(context), [Context(kept), Removed(removed), PatchRoundTrip.Added(added), Blank], true)
  }

  lemma SampleChunkAsWritten(context: string, kept: string, removed: string, added: string)
    requires PlainLine(context) && PlainLine(kept) && PlainLine(removed) && PlainLine(added)
    ensures var chunk := SampleChunk(context, kept, removed, added);
            && PrintableChunk(chunk, true)
            && RenderChunk(chunk) == ["@@ " + context, " " + kept, "-" + removed, "+" + added, "", "*** End of File"]
            && ChunkMeaning(chunk) == Chunk(Some(context), [kept, removed, ""], [kept, added, ""], true)
  {
    DiffAsWritten(kept, removed, added);
    hide PlainLine, RenderDiff, OldText, NewText;
  }

  lemma OneChunkDoc(path: string, movePath: Option<string>, chunk: ChunkDoc)
    requires PrintablePath(path) && PrintableChunk(chunk, true) && (movePath.Some? ==> PlainLine(movePath.value))
    ensures var hunk := UpdateDoc(path, movePath, [chunk]);
            && PrintableHunk(hunk)
            && RenderHunk(hunk) == ["*** Update File: " + path]
                                   + (if movePath.Some? then ["*** Move to: " + movePath.value] else [])
                                   + RenderChunk(chunk)
            && Meaning(hunk) == PatchSyntax.UpdateFile(path, movePath, [ChunkMeaning(chunk)])
  {
    hide PlainLine, PrintablePath, PrintableChunk, RenderChunk, ChunkMeaning;
    assert [chunk][1..] == [];
    assert PrintableChunks([chunk][1..], false);
    assert RenderChunks([chunk][1..]) == [] && ChunkMeanings([chunk][1..]) == [];
    assert RenderChunks([chunk]) == RenderChunk(chunk) + [];
    assert ChunkMeanings([chunk]) == [ChunkMeaning(chunk)] + [];
  }

  /** An update with every kind of line, written out. */
  lemma UpdateAsWritten(path: string, dest: string, context: string, kept: string, removed: string, added: string,
                        mode: ParseMode)
    requires PrintablePath(path) && PlainLine(dest) && PlainLine(context)
    requires PlainLine(kept) && PlainLine(removed) && PlainLine(added)
    ensures var patch := PatchOf(["*** Update File: " + path, "*** Move to: " + dest, "@@ " + context, " " + kept,
                                  "-" + removed, "+" + added, "", "*** End of File"]);
            var chunk := Chunk(Some(context), [kept, removed, ""], [kept, added, ""], true);
            ParseText(patch, mode) == Success(PatchArgs([PatchSyntax.UpdateFile(path, Some(dest), [chunk])], patch))
  {
    var chunk := SampleChunk(context, kept, removed, added);
    SampleChunkAsWritten(context, kept, removed, added);
    OneChunkDoc(path, Some(dest), chunk);
    hide *;
    var hunk := UpdateDoc(path, Some(dest), [chunk]);
    var body := ["*** Update File: " + path, "*** Move to: " + dest, "@@ " + context, " " + kept, "-" + removed,
      "+" + added, "", "*** End of File"];
    assert RenderHunk(hunk) == body;
    ParseOfOne(hunk, PatchOf(body), mode);
  }

  lemma AfterOne(files: Files, cwd: Path, patch: string, mode: ParseMode, hunk: Hunk)
    requires ParseText(patch, mode) == Success(PatchArgs([hunk], patch))
    ensures var (after, outcome) := Execute(files, cwd, [hunk]);
            After(files, cwd, patch, mode) == if outcome.Success? then Some(after) else None
  {
    hide ParseText, Execute;
  }

  // ---------- Patches ----------

  /** The text of an addition leaves a file with the marked lines. */
  lemma AdditionAsWritten(files: Files, cwd: Path, written: WrittenPath, lines: seq<string>, mode: ParseMode)
    requires written.Clean() && PrintablePath(written.Text()) && AllPlain(lines)
    ensures var patch := PatchOf(["*** Add File: " + written.Text()] + Marked("+", lines));
            var after := After(files, cwd, patch, mode);
            after.Some? && OnlyChanges(files, after.value, written.From(cwd), Some(TextFile(FileOf(lines))))
  {
    var hunk := AddDoc(written.Text(), lines);
    MarkedAdded(lines);
    var patch := PatchOf(RenderHunk(hunk));
    ParseOfOne(hunk, patch, mode);
    UnlinesIsFile(lines);
    AddEffect(files, cwd, written, Unlines(lines));
    AfterOne(files, cwd, patch, mode, Meaning(hunk));
    hide Execute, OnlyChanges, ParseText, After, Preview;
  }

  lemma {:induction false} UnlinesIsFile(lines: seq<string>)
    ensures Unlines(lines) == FileOf(lines)
  {
    if lines == [] {
    } else {
      UnlinesIsFile(lines[1..]);
      assert (lines + [""])[1..] == lines[1..] + [""];
    }
  }

  /** The text of a deletion removes its file, if there is one. */
  lemma DeletionAsWritten(files: Files, cwd: Path, written: WrittenPath, mode: ParseMode)
    requires written.Clean() && PrintablePath(written.Text())
    ensures var after := After(files, cwd, PatchOf(["*** Delete File: " + written.Text()]), mode);
            && (after.Some? <==> written.From(cwd) in files)
            && (after.Some? ==> OnlyChanges(files, after.value, written.From(cwd), None))
  {
    var hunk := DeleteDoc(written.Text());
    var patch := PatchOf(RenderHunk(hunk));
    ParseOfOne(hunk, patch, mode);
    DeleteEffect(files, cwd, written);
    AfterOne(files, cwd, patch, mode, Meaning(hunk));
    hide Execute, OnlyChanges, ParseText, After, Preview;
  }

  function ReplacementChunk(removed: seq<string>, added: seq<string>): ChunkDoc {
    ChunkDoc(BareHead, AsRemoved(removed) + AsAdded(added), false)
  }

  lemma ReplacementPrintable(removed: seq<string>, added: seq<string>)
    requires removed != [] && AllPlain(removed) && AllPlain(added)
    ensures PrintableChunk(ReplacementChunk(removed, added), true)
  {
    AsAddedLines(removed);
    AsAddedLines(added);
    hide AsRemoved, AsAdded, PrintableDiffLine, AllPlain;
    var diff := AsRemoved(removed) + AsAdded(added);
    assert forall k :: 0 <= k < |diff| ==> diff[k] in AsRemoved(removed) || diff[k] in AsAdded(added);
  }

  lemma ReplacementAsDocument(removed: seq<string>, added: seq<string>)
    ensures var chunk := ReplacementChunk(removed, added);
            && RenderChunk(chunk) == ["@@"] + (Marked("-", removed) + Marked("+", added))
            && ChunkMeaning(chunk) == Chunk(None, removed, added, false)
  {
    MarkedDiff(removed, added);
    hide RenderDiff, AsRemoved, AsAdded, OldText, NewText, Marked;
  }

  function ReplacementBody(path: string, removed: seq<string>, added: seq<string>): seq<string> {
    ["*** Update File: " + path, "@@"] + (Marked("-", removed) + Marked("+", added))
  }

  lemma HeaderFirst(header: string, marker: string, diff: seq<string>)
    ensures [header] + [] + ([marker] + diff) == [header, marker] + diff
  {
  }

  lemma ReplacementHunk(path: string, removed: seq<string>, added: seq<string>)
    requires PrintablePath(path) && removed != [] && AllPlain(removed) && AllPlain(added)
    ensures var hunk := UpdateDoc(path, None, [ReplacementChunk(removed, added)]);
            && PrintableHunk(hunk) && RenderHunk(hunk) == ReplacementBody(path, removed, added)
            && Meaning(hunk) == PatchSyntax.UpdateFile(path, None, [Chunk(None, removed, added, false)])
  {
    ReplacementPrintable(removed, added);
    ReplacementAsDocument(removed, added);
    OneChunkDoc(path, None, ReplacementChunk(removed, added));
    HeaderFirst("*** Update File: " + path, "@@", Marked("-", removed) + Marked("+", added));
    hide AllPlain, PrintableChunk, PrintableHunk, PrintablePath, Marked, RenderChunk, RenderHunk, Meaning, ChunkMeaning,
      ReplacementChunk;
  }

  lemma ReplacementParses(path: string, removed: seq<string>, added: seq<string>, mode: ParseMode)
    requires PrintablePath(path) && removed != [] && AllPlain(removed) && AllPlain(added)
    ensures var patch := PatchOf(ReplacementBody(path, removed, added));
            var chunk := Chunk(None, removed, added, false);
            ParseText(patch, mode) == Success(PatchArgs([PatchSyntax.UpdateFile(path, None, [chunk])], patch))
  {
    var hunk := UpdateDoc(path, None, [ReplacementChunk(removed, added)]);
    ReplacementHunk(path, removed, added);
    hide *;
    ParseOfOne(hunk, PatchOf(RenderHunk(hunk)), mode);
  }

  lemma ReplacedText(lines: seq<string>, removed: seq<string>, added: seq<string>, i: nat)
    requires SingleLines(lines) && removed != [] && FirstStands(lines, removed, 0, i)
    ensures var updated := lines[..i] + added + lines[i + |removed|..];
            UpdatedText(FileOf(lines), [Chunk(None, removed, added, false)]) == Success(FileText(updated))
  {
    var pieces := lines + [""];
    assert forall p :: p in pieces ==> '\n' !in p;
    SplitJoin(pieces, '\n');
    OneChunkReplaces(lines, removed, added, i);
    hide Split, UpdatedLines, FirstStands;
    assert DropLast(pieces) == lines;
    assert FileLines(Join(pieces, "\n")) == lines;
  }

  /** The text of a replacement, whose removed lines stand at `i` and nowhere before, leaves a file in
      which the added lines stand there instead. */
  lemma ReplacementAsWritten(files: Files, cwd: Path, written: WrittenPath, lines: seq<string>,
                             removed: seq<string>, added: seq<string>, i: nat, mode: ParseMode)
    requires written.Clean() && PrintablePath(written.Text())
    requires SingleLines(lines) && Lookup(files, written.From(cwd)) == Some(TextFile(FileOf(lines)))
    requires removed != [] && FirstStands(lines, removed, 0, i) && AllPlain(removed) && AllPlain(added)
    ensures var patch := PatchOf(["*** Update File: " + written.Text(), "@@"]
                                 + (Marked("-", removed) + Marked("+", added)));
            var after := After(files, cwd, patch, mode);
            var updated := lines[..i] + added + lines[i + |removed|..];
            var text := if updated != [] && updated[|updated| - 1] == "" then Join(updated, "\n") else FileOf(updated);
            after.Some? && OnlyChanges(files, after.value, written.From(cwd), Some(TextFile(text)))
  {
    var updated := lines[..i] + added + lines[i + |removed|..];
    var chunk := Chunk(None, removed, added, false);
    var hunk := PatchSyntax.UpdateFile(written.Text(), None, [chunk]);
    var patch := PatchOf(ReplacementBody(written.Text(), removed, added));
    ReplacementParses(written.Text(), removed, added, mode);
    ReplacedText(lines, removed, added, i);
    UpdateEffect(files, cwd, written, [chunk], FileOf(lines), FileText(updated));
    AfterOne(files, cwd, patch, mode, hunk);
    hide Execute, OnlyChanges, ParseText, After, Preview, UpdatedText, FirstStands, AllPlain, PatchOf, Marked;
  }
}
