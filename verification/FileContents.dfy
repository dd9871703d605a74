/** `derive_new_contents_from_chunks`: from the text of a file to the text of the updated file. */
module FileContents {
  import opened Wrappers
  import opened Text
  import Sorting
  import opened PatchSyntax
  import opened Replacements
  import opened SeekSequence
  import opened UpdateFile

  // ---------- Specification ----------

  /** The lines of a file, without the empty piece after a final newline. */
  function FileLines(text: string): (lines: seq<string>) {
    var pieces := Split(text, '\n');
    if EndsBlank(pieces) then DropLast(pieces) else pieces
  }

  /** The file is written with a final newline, unless its last line is already blank. */
  function FileText(lines: seq<string>): (text: string) {
    Join(if EndsBlank(lines) then lines else lines + [""], "\n")
  }

  function UpdatedLines(lines: seq<string>, chunks: seq<Chunk>): (r: Result<seq<string>, UpdateError>) {
    var edits :- Compute(lines, chunks);
    ComputedInBounds(lines, chunks);
    Success(ApplyFromEnd(lines, edits))
  }

  function UpdatedText(text: string, chunks: seq<Chunk>): (r: Result<string, UpdateError>) {
    var lines :- UpdatedLines(FileLines(text), chunks);
    Success(FileText(lines))
  }

  method DeriveNewContents(text: string, chunks: seq<Chunk>) returns (r: Result<string, UpdateError>)
    ensures r == UpdatedText(text, chunks)
  {
    var originalLines := Split(text, '\n');
    if EndsBlank(originalLines) {
      originalLines := originalLines[..|originalLines| - 1];
    }
    var replacements :- ComputeReplacements(originalLines, chunks);
    ComputedInBounds(originalLines, chunks);
    var newLines := ApplyReplacements(originalLines, replacements);
    if !EndsBlank(newLines) {
      newLines := newLines + [""];
    }
    r := Success(Join(newLines, "\n"));
  }

  // ---------- The final newline ----------

  predicate EndsInNewline(text: string) {
    text != "" && text[|text| - 1] == '\n'
  }

  lemma {:induction false} SplitSnocNewline(text: string)
    ensures Split(text + "\n", '\n') == Split(text, '\n') + [""]
  {
    var s := text + "\n";
    if text == "" {
      assert s[1..] == "";
    } else {
      assert s[1..] == text[1..] + "\n";
      SplitSnocNewline(text[1..]);
    }
  }

  lemma {:induction false} SplitEndsBlank(text: string)
    ensures EndsBlank(Split(text, '\n')) <==> text == "" || EndsInNewline(text)
  {
    if text == "" {
    } else {
      SplitEndsBlank(text[1..]);
      var rest := Split(text[1..], '\n');
      var pieces := Split(text, '\n');
      if text[0] == '\n' {
        assert pieces[|pieces| - 1] == rest[|rest| - 1];
      } else if |rest| > 1 {
        assert pieces[|pieces| - 1] == rest[|rest| - 1];
        assert text[1..] != "";
      }
    }
  }

  lemma ReadWriteTerminated(body: string)
    ensures FileText(FileLines(body + "\n")) == if body == "" || EndsInNewline(body) then body else body + "\n"
  {
    SplitSnocNewline(body);
    SplitEndsBlank(body);
    JoinSplit(body, '\n');
    hide Split, Join;
    var pieces := Split(body, '\n');
    assert FileLines(body + "\n") == pieces;
    JoinSnoc(pieces, "", '\n');
  }

  /** Reading a file and writing its lines back loses a newline when the text ends in a blank line
      and adds one when the last line is not terminated. */
  lemma ReadWriteBack(text: string)
    ensures var n := |text|;
            FileText(FileLines(text)) ==
            if text == "" then ""
            else if !EndsInNewline(text) then text + "\n"
            else if n == 1 || text[n - 2] == '\n' then text[..n - 1]
            else text
  {
    if EndsInNewline(text) {
      var body := text[..|text| - 1];
      assert text == body + "\n";
      assert EndsInNewline(body) <==> |text| >= 2 && text[|text| - 2] == '\n';
      hide FileText, FileLines;
      ReadWriteTerminated(body);
    } else {
      SplitEndsBlank(text);
      JoinSplit(text, '\n');
      hide Split;
      if text != "" {
        JoinSnoc(Split(text, '\n'), "", '\n');
      }
    }
  }

  /** The text is empty, or ends in one newline that follows a non-empty line. */
  predicate CleanEnd(text: string) {
    text == "" || (EndsInNewline(text) && |text| >= 2 && text[|text| - 2] != '\n')
  }

  lemma FileTextEndsInNewline(lines: seq<string>)
    ensures FileText(lines) == "" || EndsInNewline(FileText(lines))
  {
    var pieces := if EndsBlank(lines) then lines else lines + [""];
    var front := DropLast(pieces);
    assert pieces == front + [""];
    if front != [] {
      JoinSnoc(front, "", '\n');
      assert Join(pieces, "\n")[|Join(front, "\n")|] == '\n';
    }
  }

  /** Whatever the chunks do, an updated file is empty or ends in a newline. */
  lemma UpdatedTextEndsInNewline(text: string, chunks: seq<Chunk>)
    requires UpdatedText(text, chunks).Success?
    ensures var updated := UpdatedText(text, chunks).value;
            updated == "" || EndsInNewline(updated)
  {
    FileTextEndsInNewline(UpdatedLines(FileLines(text), chunks).value);
  }

  // ---------- Both hypotheses of `EditsAreDisjoint` are needed ----------

  lemma PlainExactSeek(lines: seq<string>, pattern: seq<string>, start: nat, eof: bool)
    requires pattern != [] && start + |pattern| <= |lines|
    requires lines[start..start + |pattern|] == pattern
    requires eof ==> start + |pattern| == |lines|
    ensures Seek(lines, pattern, start, eof) == Some(start)
  {
    forall k | 0 <= k < |pattern|
      ensures lines[start + k] == pattern[k]
    {
      assert lines[start..start + |pattern|][k] == pattern[k];
    }
    assert Exact.Matches(lines, pattern, start);
    assert FirstMatch(Exact, lines, pattern, start) == Some(start);
  }

  lemma PlaceTwoChunks(lines: seq<string>, first: Chunk, second: Chunk)
    requires PlaceChunk(lines, first, 0).Success?
    requires PlaceChunk(lines, second, PlaceChunk(lines, first, 0).value.1).Success?
    ensures PlaceChunks(lines, [first, second], 0) ==
            Success([PlaceChunk(lines, first, 0).value.0,
                     PlaceChunk(lines, second, PlaceChunk(lines, first, 0).value.1).value.0])
  {
    var next := PlaceChunk(lines, first, 0).value.1;
    var last := PlaceChunk(lines, second, next).value.1;
    assert [first, second][1..] == [second] && [second][1..] == [];
    assert PlaceChunks(lines, [], last) == Success([]);
    assert PlaceChunks(lines, [second][1..], last) == Success([]);
    var e2 := PlaceChunk(lines, second, next).value.0;
    assert PlaceChunks(lines, [second], next) == Success([e2] + []);
    assert [e2] + [] == [e2];
    assert PlaceChunks(lines, [first, second][1..], next) == Success([e2]);
    var e1 := PlaceChunk(lines, [first, second][0], 0).value.0;
    assert PlaceChunks(lines, [first, second], 0) == Success([e1] + [e2]);
    assert [e1] + [e2] == [e1, e2];
  }

  /** An end-of-file chunk looks behind the cursor and takes a line that the chunk before it already
      replaced. */
  lemma EndOfFileChunkOverlaps()
    ensures var lines := ["a", "b"];
            var chunks := [Chunk(None, ["a", "b"], ["x"], false), Chunk(None, ["b"], ["y"], true)];
            && AdditionsGoLast(lines, chunks) && !NoEndOfFileMatch(chunks)
            && Compute(lines, chunks).Success? && !Disjoint(Compute(lines, chunks).value)
  {
    var lines := ["a", "b"];
    var first, second := Chunk(None, ["a", "b"], ["x"], false), Chunk(None, ["b"], ["y"], true);
    var chunks := [first, second];
    PlainExactSeek(lines, ["a", "b"], 0, false);
    PlainExactSeek(lines, ["b"], 1, true);
    assert Seek(lines, ["b"], 2, true) == Seek(lines, ["b"], 1, true);
    assert PlaceChunk(lines, first, 0) == Success((Replacement(0, 2, ["x"]), 2));
    assert PlaceChunk(lines, second, 2) == Success((Replacement(1, 1, ["y"]), 2));
    PlaceTwoChunks(lines, first, second);
    var placed := PlaceChunks(lines, chunks, 0).value;
    assert placed == [Replacement(0, 2, ["x"]), Replacement(1, 1, ["y"])];
    SortedDisjointIffCompatible(placed);
    assert !Compatible(placed[0], placed[1]);
    assert chunks[1].isEndOfFile;
  }

  /** A pure addition goes in front of a final blank line, inside the lines another chunk replaces. */
  lemma AdditionBeforeBlankLineOverlaps()
    ensures var lines := ["a", ""];
            var chunks := [Chunk(None, ["a", ""], ["x"], false), Chunk(None, [], ["y"], false)];
            && NoEndOfFileMatch(chunks) && !AdditionsGoLast(lines, chunks)
            && Compute(lines, chunks).Success? && !Disjoint(Compute(lines, chunks).value)
  {
    var lines := ["a", ""];
    var first, second := Chunk(None, ["a", ""], ["x"], false), Chunk(None, [], ["y"], false);
    var chunks := [first, second];
    PlainExactSeek(lines, ["a", ""], 0, false);
    assert PlaceChunk(lines, first, 0) == Success((Replacement(0, 2, ["x"]), 2));
    assert PlaceChunk(lines, second, 2) == Success((Replacement(1, 0, ["y"]), 2));
    PlaceTwoChunks(lines, first, second);
    var placed := PlaceChunks(lines, chunks, 0).value;
    assert placed == [Replacement(0, 2, ["x"]), Replacement(1, 0, ["y"])];
    SortedDisjointIffCompatible(placed);
    assert !Compatible(placed[0], placed[1]);
    assert chunks[1].oldLines == [];
  }

  lemma ApplyOverlap(first: Replacement, second: Replacement)
    requires first == Replacement(0, 1, ["b"]) && second == Replacement(0, 0, ["x"])
    ensures SortByStart([first, second]) == [first, second]
    ensures SortedByStart([first, second]) && StartsWithin([first, second], 1)
    ensures ApplyFromEnd([""], [first, second]) == ["b", ""]
  {
    var edits := [first, second];
    assert edits[1..] == [second] && edits[1..][1..] == [];
    assert [second][1..] == [];
    assert Sorting.SortBy(BY_START, []) == [];
    assert SortByStart([second]) == [second];
    assert ApplyFromEnd([""], [second]) == ["x", ""];
    assert ApplyFromEnd([""], edits) == ApplyOne(["x", ""], first);
  }

  /** An edit that overlaps with an insertion removes the inserted line instead of the one it was meant
      for: the file is one blank line, the second chunk adds "x" to it, and "x" is lost. */
  lemma OverlapDamagesInsertedLines()
    ensures var lines := [""];
            var chunks := [Chunk(None, [""], ["b"], false), Chunk(None, [], ["x"], false)];
            && Compute(lines, chunks) == Success([Replacement(0, 1, ["b"]), Replacement(0, 0, ["x"])])
            && UpdatedLines(lines, chunks) == Success(["b", ""])
  {
    var lines := [""];
    var first, second := Chunk(None, [""], ["b"], false), Chunk(None, [], ["x"], false);
    PlainExactSeek(lines, [""], 0, false);
    assert PlaceChunk(lines, first, 0) == Success((Replacement(0, 1, ["b"]), 1));
    assert PlaceChunk(lines, second, 1) == Success((Replacement(0, 0, ["x"]), 1));
    PlaceTwoChunks(lines, first, second);
    hide PlaceChunk, PlaceChunks, Seek;
    ApplyOverlap(Replacement(0, 1, ["b"]), Replacement(0, 0, ["x"]));
  }
}
