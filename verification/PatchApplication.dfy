/** What an update does to a file whose lines its chunks name: every chunk's old lines make way for its new
    lines, and nothing else changes. */
module PatchApplication {
  import opened Wrappers
  import opened Text
  import opened PatchSyntax
  import opened Sorting
  import opened Replacements
  import opened SeekSequence
  import opened UpdateFile
  import opened FileContents
  import opened NoOpPatches

  // ---------- The lines that one chunk inserts ----------

  /** Where the edit removes all old lines it inserts all new lines. Where it removes them without their
      blank last line, it inserts the new lines without their last line if and only if that is blank. A pure
      addition inserts its lines at the end, or in front of a final blank line. */
  lemma InsertedLines(lines: seq<string>, chunk: Chunk, cursor: nat)
    requires PlaceChunk(lines, chunk, cursor).Success?
    ensures var edit := PlaceChunk(lines, chunk, cursor).value.0;
            var blank := chunk.newLines != [] && chunk.newLines[|chunk.newLines| - 1] == "";
            && edit.oldLen <= |chunk.oldLines|
            && (edit.oldLen == |chunk.oldLines| ==> edit.newLines == chunk.newLines)
            && (edit.oldLen < |chunk.oldLines| ==>
                  && chunk.oldLines == chunk.oldLines[..edit.oldLen] + [""]
                  && chunk.newLines == if blank then edit.newLines + [""] else edit.newLines)
            && (chunk.oldLines == [] ==>
                  edit.start == if lines != [] && lines[|lines| - 1] == "" then |lines| - 1 else |lines|)
  {
    hide Seek;
  }

  // ---------- Where one chunk is placed ----------

  /** The earliest match of the strictest pass that matches at all in the searched range. */
  ghost predicate FoundAt(lines: seq<string>, pattern: seq<string>, start: nat, eof: bool, i: nat) {
    && |pattern| <= |lines|
    && exists pass :: StrictestEarliest(pass, lines, pattern, SearchStart(lines, pattern, start, eof), i)
  }

  ghost predicate Nowhere(lines: seq<string>, pattern: seq<string>, start: nat, eof: bool) {
    NoPassMatches(lines, pattern, SearchStart(lines, pattern, start, eof))
  }

  /** The search for the old lines starts behind the context line, if there is one. */
  ghost predicate SearchedFrom(lines: seq<string>, context: Option<string>, cursor: nat, start: nat) {
    match context
    case None => start == cursor
    case Some(line) => start > 0 && FoundAt(lines, [line], cursor, false, start - 1)
  }

  /** The edit removes the old lines where they are found; those that are nowhere but end in a blank line, are
      removed without it where the others are found, or at the start if there are no others. */
  ghost predicate Removes(lines: seq<string>, chunk: Chunk, start: nat, edit: Replacement) {
    var gone, eof := chunk.oldLines, chunk.isEndOfFile;
    || (gone == [] && edit.oldLen == 0)
    || (gone != [] && edit.oldLen == |gone| && FoundAt(lines, gone, start, eof, edit.start))
    || (EndsBlank(gone) && edit.oldLen == |gone| - 1 && Nowhere(lines, gone, start, eof)
        && if |gone| == 1 then edit.start == start else FoundAt(lines, DropLast(gone), start, eof, edit.start))
  }

  lemma SoughtAt(lines: seq<string>, pattern: seq<string>, start: nat, eof: bool)
    requires pattern != []
    ensures match Seek(lines, pattern, start, eof) {
              case Some(i) => FoundAt(lines, pattern, start, eof, i)
              case None => Nowhere(lines, pattern, start, eof)
            }
  {
    match Seek(lines, pattern, start, eof)
    case Some(i) => FoundIsStrictestThenEarliest(lines, pattern, start, eof, i);
    case None => NotFoundMeansNoMatch(lines, pattern, start, eof);
  }

  lemma EmptyIsFound(lines: seq<string>, start: nat, eof: bool)
    ensures Seek(lines, [], start, eof) == Some(start)
  {
  }

  /** A chunk is placed behind its context and where its old lines are found, and the next chunk is looked for
      behind it. Otherwise its context or its old lines are nowhere to be found, and the error says which. */
  lemma PlacedWhereFound(lines: seq<string>, chunk: Chunk, cursor: nat)
    ensures match PlaceChunk(lines, chunk, cursor) {
              case Success((edit, next)) =>
                exists start: nat ::
                  && SearchedFrom(lines, chunk.changeContext, cursor, start)
                  && Removes(lines, chunk, start, edit)
                  && next == if chunk.oldLines == [] then start else edit.start + edit.oldLen
              case Failure(ContextNotFound(context)) =>
                chunk.changeContext == Some(context) && Nowhere(lines, [context], cursor, false)
              case Failure(LinesNotFound(missing)) =>
                && missing == chunk.oldLines != []
                && exists start: nat ::
                     && SearchedFrom(lines, chunk.changeContext, cursor, start)
                     && Nowhere(lines, missing, start, chunk.isEndOfFile)
                     && (EndsBlank(missing) ==>
                           |missing| > 1 && Nowhere(lines, DropLast(missing), start, chunk.isEndOfFile))
            }
  {
    if chunk.changeContext.Some? {
      SoughtAt(lines, [chunk.changeContext.value], cursor, false);
    }
    if AfterContext(lines, chunk, cursor).Success? {
      var start := AfterContext(lines, chunk, cursor).value;
      assert SearchedFrom(lines, chunk.changeContext, cursor, start);
      if chunk.oldLines != [] {
        SoughtAt(lines, chunk.oldLines, start, chunk.isEndOfFile);
        if EndsBlank(chunk.oldLines) && |chunk.oldLines| > 1 {
          SoughtAt(lines, DropLast(chunk.oldLines), start, chunk.isEndOfFile);
        }
        EmptyIsFound(lines, start, chunk.isEndOfFile);
      }
      hide FoundAt, Nowhere, Seek, AfterContext;
    }
  }

  // ---------- Lines that stand in the file ----------

  predicate Stands(lines: seq<string>, pattern: seq<string>, i: nat) {
    i + |pattern| <= |lines| && lines[i..i + |pattern|] == pattern
  }

  /** The lines stand at `i`, and nowhere between `from` and `i`. */
  predicate FirstStands(lines: seq<string>, pattern: seq<string>, from: nat, i: nat) {
    from <= i && Stands(lines, pattern, i) && forall j :: from <= j < i ==> !Stands(lines, pattern, j)
  }

  lemma StandsIff(lines: seq<string>, pattern: seq<string>, i: nat)
    ensures Stands(lines, pattern, i) <==> Exact.Matches(lines, pattern, i)
  {
    if i + |pattern| <= |lines| {
      var there := lines[i..i + |pattern|];
      assert forall k :: 0 <= k < |pattern| ==> there[k] == lines[i + k];
      if Exact.Matches(lines, pattern, i) {
        forall k | 0 <= k < |pattern|
          ensures there[k] == pattern[k]
        {
          assert Exact.View(lines[i + k]) == Exact.View(pattern[k]);
        }
      }
    }
  }

  /** The search finds lines where they first stand. */
  lemma StandingIsFound(lines: seq<string>, pattern: seq<string>, from: nat, i: nat)
    requires pattern != [] && FirstStands(lines, pattern, from, i)
    ensures Seek(lines, pattern, from, false) == Some(i)
  {
    StandsIff(lines, pattern, i);
    forall j: nat | from <= j < i
      ensures !Exact.Matches(lines, pattern, j)
    {
      StandsIff(lines, pattern, j);
    }
    assert StrictestEarliest(Exact, lines, pattern, from, i);
    FoundIsStrictestThenEarliest(lines, pattern, from, false, i);
  }

  // ---------- Whole updates ----------

  /** Where a chunk's context line, if it has one, and its old lines stand. */
  datatype Spot = Spot(context: nat, at: nat)

  /** A chunk's context first stands at or after the cursor, and its old lines after the context, or at the
      end of the file for an end-of-file chunk. */
  predicate FitsAt(lines: seq<string>, chunk: Chunk, spot: Spot, cursor: nat) {
    var start := if chunk.changeContext.Some? then spot.context + 1 else cursor;
    && chunk.oldLines != []
    && (chunk.changeContext.Some? ==> FirstStands(lines, [chunk.changeContext.value], cursor, spot.context))
    && (if chunk.isEndOfFile
        then start <= spot.at && spot.at + |chunk.oldLines| == |lines| && Stands(lines, chunk.oldLines, spot.at)
        else FirstStands(lines, chunk.oldLines, start, spot.at))
  }

  /** Every chunk fits behind the one before it. */
  predicate Fits(lines: seq<string>, chunks: seq<Chunk>, spots: seq<Spot>, cursor: nat)
    decreases |chunks|
  {
    && |chunks| == |spots| && cursor <= |lines|
    && (chunks != [] ==>
          && FitsAt(lines, chunks[0], spots[0], cursor)
          && cursor <= spots[0].at
          && Fits(lines, chunks[1..], spots[1..], spots[0].at + |chunks[0].oldLines|))
  }

  /** The file with the new lines of each chunk in the place of its old ones. */
  function Applied(lines: seq<string>, chunks: seq<Chunk>, spots: seq<Spot>, cursor: nat): seq<string>
    requires Fits(lines, chunks, spots, cursor)
    decreases |chunks|
  {
    if chunks == [] then lines[cursor..]
    else
      lines[cursor..spots[0].at] + chunks[0].newLines
      + Applied(lines, chunks[1..], spots[1..], spots[0].at + |chunks[0].oldLines|)
  }

  function EditOf(chunk: Chunk, spot: Spot): Replacement {
    Replacement(spot.at, |chunk.oldLines|, chunk.newLines)
  }

  function EditsOf(chunks: seq<Chunk>, spots: seq<Spot>): (edits: seq<Replacement>)
    requires |chunks| == |spots|
    ensures |edits| == |chunks|
  {
    if chunks == [] then [] else [EditOf(chunks[0], spots[0])] + EditsOf(chunks[1..], spots[1..])
  }

  lemma PlacedAt(lines: seq<string>, chunk: Chunk, spot: Spot, cursor: nat)
    requires FitsAt(lines, chunk, spot, cursor)
    ensures PlaceChunk(lines, chunk, cursor) == Success((EditOf(chunk, spot), spot.at + |chunk.oldLines|))
  {
    hide Seek;
    if chunk.changeContext.Some? {
      StandingIsFound(lines, [chunk.changeContext.value], cursor, spot.context);
    }
    var start := if chunk.changeContext.Some? then spot.context + 1 else cursor;
    if chunk.isEndOfFile {
      StandsAtEnd(lines, chunk.oldLines, start, spot.at);
    } else {
      StandingIsFound(lines, chunk.oldLines, start, spot.at);
    }
  }

  lemma StandsAtEnd(lines: seq<string>, pattern: seq<string>, start: nat, at: nat)
    requires pattern != [] && Stands(lines, pattern, at) && at + |pattern| == |lines|
    ensures Seek(lines, pattern, start, true) == Some(at)
  {
    StandsIff(lines, pattern, at);
    hide Seek;
    PassesAreNested(Exact, IgnorePunctuation, lines, pattern, at);
    EndOfFileLooksOnlyAtTheEnd(lines, pattern, start);
  }

  lemma {:induction false} AllPlacedAt(lines: seq<string>, chunks: seq<Chunk>, spots: seq<Spot>, cursor: nat)
    requires Fits(lines, chunks, spots, cursor)
    ensures PlaceChunks(lines, chunks, cursor) == Success(EditsOf(chunks, spots))
    decreases |chunks|
  {
    hide PlaceChunk, FitsAt;
    if chunks == [] {
    } else {
      PlacedAt(lines, chunks[0], spots[0], cursor);
      AllPlacedAt(lines, chunks[1..], spots[1..], spots[0].at + |chunks[0].oldLines|);
    }
  }

  lemma {:induction false} EditsInOrder(lines: seq<string>, chunks: seq<Chunk>, spots: seq<Spot>, cursor: nat)
    requires Fits(lines, chunks, spots, cursor)
    ensures Disjoint(EditsOf(chunks, spots)) && InBounds(EditsOf(chunks, spots), |lines|)
    ensures forall e :: e in EditsOf(chunks, spots) ==> cursor <= e.start
    decreases |chunks|
  {
    if chunks == [] {
    } else {
      var rest := EditsOf(chunks[1..], spots[1..]);
      var next := spots[0].at + |chunks[0].oldLines|;
      EditsInOrder(lines, chunks[1..], spots[1..], next);
      hide FitsAt;
      DisjointCons(EditOf(chunks[0], spots[0]), rest);
    }
  }

  lemma EditsCons(chunks: seq<Chunk>, spots: seq<Spot>)
    requires |chunks| == |spots| && chunks != []
    ensures EditsOf(chunks, spots) == [EditOf(chunks[0], spots[0])] + EditsOf(chunks[1..], spots[1..])
  {
  }

  /** The splice taken apart at its first edit. */
  lemma SpliceStep(lines: seq<string>, edits: seq<Replacement>, pos: nat)
    requires Disjoint(edits) && InBounds(edits, |lines|) && edits != [] && pos <= edits[0].start
    ensures var next := edits[0].start + edits[0].oldLen;
            && Disjoint(edits[1..]) && InBounds(edits[1..], |lines|) && next <= |lines|
            && (edits[1..] != [] ==> next <= edits[1..][0].start)
            && Splice(lines, edits, pos) ==
               lines[pos..edits[0].start] + edits[0].newLines + Splice(lines, edits[1..], next)
  {
    DisjointTail(edits, |lines|);
  }

  lemma AppliedStep(lines: seq<string>, chunks: seq<Chunk>, spots: seq<Spot>, cursor: nat)
    requires Fits(lines, chunks, spots, cursor) && chunks != []
    ensures var next := spots[0].at + |chunks[0].oldLines|;
            && |chunks| == |spots| && cursor <= spots[0].at && next <= |lines|
            && Fits(lines, chunks[1..], spots[1..], next)
            && Applied(lines, chunks, spots, cursor) ==
               lines[cursor..spots[0].at] + chunks[0].newLines + Applied(lines, chunks[1..], spots[1..], next)
  {
    hide FitsAt;
  }

  lemma {:induction false} SpliceIsApplied(lines: seq<string>, chunks: seq<Chunk>, spots: seq<Spot>, cursor: nat)
    requires Fits(lines, chunks, spots, cursor)
    ensures var edits := EditsOf(chunks, spots);
            && Disjoint(edits) && InBounds(edits, |lines|) && (edits != [] ==> cursor <= edits[0].start)
            && Splice(lines, edits, cursor) == Applied(lines, chunks, spots, cursor)
    decreases |chunks|
  {
    EditsInOrder(lines, chunks, spots, cursor);
    if chunks == [] {
    } else {
      AppliedStep(lines, chunks, spots, cursor);
      hide Fits, Applied, EditsOf, Disjoint, InBounds, Splice;
      var edits, rest := EditsOf(chunks, spots), EditsOf(chunks[1..], spots[1..]);
      EditsCons(chunks, spots);
      assert edits[0] == EditOf(chunks[0], spots[0]) && edits[1..] == rest;
      assert edits[0] in edits;
      SpliceStep(lines, edits, cursor);
      SpliceIsApplied(lines, chunks[1..], spots[1..], spots[0].at + |chunks[0].oldLines|);
    }
  }

  lemma SortedAlready(edits: seq<Replacement>)
    requires SortedByStart(edits)
    ensures SortByStart(edits) == edits
  {
    assert Sorted(BY_START, edits);
    SortOfSorted(BY_START, edits);
  }

  /** The main result: an update whose chunks fit replaces the old lines of each chunk by its new lines, in
      the file's order, and leaves every other line alone. */
  lemma UpdateReplaces(lines: seq<string>, chunks: seq<Chunk>, spots: seq<Spot>)
    requires Fits(lines, chunks, spots, 0)
    ensures UpdatedLines(lines, chunks) == Success(Applied(lines, chunks, spots, 0))
  {
    var edits := EditsOf(chunks, spots);
    AllPlacedAt(lines, chunks, spots, 0);
    SpliceIsApplied(lines, chunks, spots, 0);
    hide Fits, PlaceChunks, Splice, Applied, SortBy;
    BackToFrontIsSplice(lines, edits);
    SortedAlready(edits);
  }

  /** One chunk, whose old lines stand at `i` and nowhere before. */
  lemma OneChunkReplaces(lines: seq<string>, removed: seq<string>, added: seq<string>, i: nat)
    requires removed != [] && FirstStands(lines, removed, 0, i)
    ensures UpdatedLines(lines, [Chunk(None, removed, added, false)]) ==
            Success(lines[..i] + added + lines[i + |removed|..])
  {
    var chunks, spots := [Chunk(None, removed, added, false)], [Spot(0, i)];
    assert chunks[1..] == [] && spots[1..] == [];
    assert Fits(lines, [], [], i + |removed|);
    assert Fits(lines, chunks, spots, 0);
    hide FirstStands;
    UpdateReplaces(lines, chunks, spots);
    assert Applied(lines, chunks[1..], spots[1..], i + |removed|) == lines[i + |removed|..];
    assert lines[0..i] == lines[..i];
  }

  /** One chunk that only adds. */
  lemma OneChunkAdds(lines: seq<string>, added: seq<string>, eof: bool)
    ensures UpdatedLines(lines, [Chunk(None, [], added, eof)]) ==
            Success(if lines != [] && lines[|lines| - 1] == "" then lines[..|lines| - 1] + added + [""]
                    else lines + added)
  {
    var chunk := Chunk(None, [], added, eof);
    var edit := Replacement(InsertionIndex(lines), 0, added);
    assert PlaceChunk(lines, chunk, 0) == Success((edit, 0));
    assert [chunk][1..] == [];
    hide PlaceChunk;
    assert PlaceChunks(lines, [], 0) == Success([]);
    assert PlaceChunks(lines, [chunk], 0) == Success([edit] + []);
    assert [edit] + [] == [edit];
    SortedAlready([edit]);
    hide PlaceChunks, SortBy;
    assert [edit][1..] == [];
    assert ApplyFromEnd(lines, []) == lines;
    assert ApplyFromEnd(lines, [edit]) == ApplyOne(lines, edit);
    if EndsBlank(lines) {
      assert lines[edit.start..] == [""];
    } else {
      assert lines[..edit.start] == lines && lines[edit.start..] == [];
      assert lines + added + [] == lines + added;
    }
  }

  /** The same for texts: a file of lines without newlines, each ended by one, becomes the file of the updated
      lines, each ended by one but for a blank last line, which gets none. */
  lemma UpdateReplacesText(lines: seq<string>, chunks: seq<Chunk>, spots: seq<Spot>)
    requires Fits(lines, chunks, spots, 0) && SingleLines(lines)
    ensures var updated := Applied(lines, chunks, spots, 0);
            var blank := updated != [] && updated[|updated| - 1] == "";
            UpdatedText(Join(lines + [""], "\n"), chunks) ==
            Success(Join(if blank then updated else updated + [""], "\n"))
  {
    UpdateReplaces(lines, chunks, spots);
    var pieces := lines + [""];
    assert forall p :: p in pieces ==> '\n' !in p;
    SplitJoin(pieces, '\n');
    hide Split, Fits, Applied, UpdatedLines;
    assert DropLast(pieces) == lines;
    assert FileLines(Join(pieces, "\n")) == lines;
  }
}
