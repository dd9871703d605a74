/** Patches whose chunks put back the lines that they remove, and exactly when they change nothing. */
module NoOpPatches {
  import opened Wrappers
  import opened Text
  import opened PatchSyntax
  import opened Replacements
  import opened SeekSequence
  import opened UpdateFile
  import opened FileContents

  // ---------- Up to whitespace and punctuation ----------

  /** Equal line by line, up to surrounding whitespace and typographic punctuation. */
  ghost predicate Alike(a: seq<string>, b: seq<string>) {
    |a| == |b| && forall k :: 0 <= k < |a| ==> Normalise(a[k]) == Normalise(b[k])
  }

  predicate ChangesNothing(chunks: seq<Chunk>) {
    forall i :: 0 <= i < |chunks| ==> chunks[i].newLines == chunks[i].oldLines
  }

  /** The edit puts back lines like the ones it removes. */
  ghost predicate EditAlike(lines: seq<string>, edit: Replacement) {
    && edit.start + edit.oldLen <= |lines|
    && Alike(edit.newLines, lines[edit.start..edit.start + edit.oldLen])
  }

  lemma ReplacesAlike(lines: seq<string>, chunk: Chunk, edit: Replacement)
    requires Replaces(lines, chunk, edit)
    requires edit.newLines == chunk.oldLines[..edit.oldLen]
    ensures EditAlike(lines, edit)
  {
    forall k | 0 <= k < edit.oldLen
      ensures Normalise(edit.newLines[k]) == Normalise(lines[edit.start..edit.start + edit.oldLen][k])
    {
      assert IgnorePunctuation.View(lines[edit.start + k])
          == IgnorePunctuation.View(chunk.oldLines[..edit.oldLen][k]);
    }
  }

  lemma PlacedAlike(lines: seq<string>, chunk: Chunk, cursor: nat)
    requires cursor <= |lines| && chunk.newLines == chunk.oldLines
    requires PlaceChunk(lines, chunk, cursor).Success?
    ensures EditAlike(lines, PlaceChunk(lines, chunk, cursor).value.0)
  {
    ChunkFollowsContext(lines, chunk, cursor);
    var edit := PlaceChunk(lines, chunk, cursor).value.0;
    if chunk.oldLines != [] {
      assert edit.newLines == chunk.oldLines[..edit.oldLen];
      ReplacesAlike(lines, chunk, edit);
    }
  }

  lemma {:induction false} AllPlacedAlike(lines: seq<string>, chunks: seq<Chunk>, cursor: nat)
    requires cursor <= |lines| && ChangesNothing(chunks)
    requires PlaceChunks(lines, chunks, cursor).Success?
    ensures forall e :: e in PlaceChunks(lines, chunks, cursor).value ==> EditAlike(lines, e)
  {
    if chunks == [] {
    } else {
      PlacedAlike(lines, chunks[0], cursor);
      ChunkFollowsContext(lines, chunks[0], cursor);
      AllPlacedAlike(lines, chunks[1..], PlaceChunk(lines, chunks[0], cursor).value.1);
    }
  }

  lemma ApplyOneAlike(lines: seq<string>, current: seq<string>, edit: Replacement)
    requires EditAlike(lines, edit) && Alike(current, lines)
    ensures Alike(ApplyOne(current, edit), lines)
  {
    hide Normalise;
    var result := ApplyOne(current, edit);
    var end := edit.start + edit.oldLen;
    assert |edit.newLines| == edit.oldLen;
    forall k | 0 <= k < |lines|
      ensures Normalise(result[k]) == Normalise(lines[k])
    {
      if edit.start <= k < end {
        assert result[k] == edit.newLines[k - edit.start];
        assert lines[edit.start..end][k - edit.start] == lines[k];
      } else {
        assert result[k] == current[k];
      }
    }
  }

  lemma {:induction false} ApplyAlike(lines: seq<string>, edits: seq<Replacement>)
    requires SortedByStart(edits) && StartsWithin(edits, |lines|)
    requires forall i :: 0 <= i < |edits| ==> EditAlike(lines, edits[i])
    ensures Alike(ApplyFromEnd(lines, edits), lines)
  {
    if edits == [] {
    } else {
      assert forall i :: 0 <= i < |edits| - 1 ==> edits[1..][i] == edits[i + 1];
      ApplyAlike(lines, edits[1..]);
      assert EditAlike(lines, edits[0]);
      ApplyOneAlike(lines, ApplyFromEnd(lines, edits[1..]), edits[0]);
    }
  }

  /** A patch whose chunks put back the lines they remove keeps the number of lines and changes
      them at most in surrounding whitespace and punctuation, overlapping edits included. */
  lemma NoOpKeepsLines(lines: seq<string>, chunks: seq<Chunk>)
    requires ChangesNothing(chunks) && UpdatedLines(lines, chunks).Success?
    ensures Alike(UpdatedLines(lines, chunks).value, lines)
  {
    var edits := Compute(lines, chunks).value;
    var placed := PlaceChunks(lines, chunks, 0).value;
    ComputedInBounds(lines, chunks);
    AllPlacedAlike(lines, chunks, 0);
    SortKeepsMembers(placed);
    forall i | 0 <= i < |edits|
      ensures EditAlike(lines, edits[i])
    {
      assert edits[i] in placed;
    }
    ApplyAlike(lines, edits);
  }

  // ---------- To the character ----------

  /** The edit puts back exactly the lines it removes. */
  predicate ExactEdit(lines: seq<string>, edit: Replacement) {
    edit.start + edit.oldLen <= |lines| && edit.newLines == lines[edit.start..edit.start + edit.oldLen]
  }

  lemma ApplyOneExact(lines: seq<string>, edit: Replacement)
    requires ExactEdit(lines, edit)
    ensures ApplyOne(lines, edit) == lines
  {
  }

  lemma {:induction false} ApplyExact(lines: seq<string>, edits: seq<Replacement>)
    requires SortedByStart(edits) && StartsWithin(edits, |lines|)
    requires forall i :: 0 <= i < |edits| ==> ExactEdit(lines, edits[i])
    ensures ApplyFromEnd(lines, edits) == lines
  {
    if edits == [] {
    } else {
      assert forall i :: 0 <= i < |edits| - 1 ==> edits[1..][i] == edits[i + 1];
      ApplyExact(lines, edits[1..]);
      assert ExactEdit(lines, edits[0]);
      ApplyOneExact(lines, edits[0]);
      hide ApplyOne, ExactEdit;
    }
  }

  /** The old lines of the chunk stand in the file, character by character, where they were found. */
  predicate FoundExactly(lines: seq<string>, chunk: Chunk, edit: Replacement) {
    edit.oldLen <= |chunk.oldLines| && Exact.Matches(lines, chunk.oldLines[..edit.oldLen], edit.start)
  }

  /** Every chunk was found exactly. */
  predicate MatchedExactly(lines: seq<string>, chunks: seq<Chunk>, cursor: nat) {
    chunks == [] ||
    match PlaceChunk(lines, chunks[0], cursor)
    case Success((edit, next)) => FoundExactly(lines, chunks[0], edit) && MatchedExactly(lines, chunks[1..], next)
    case Failure(_) => false
  }

  lemma FoundExactlyIff(lines: seq<string>, chunk: Chunk, cursor: nat)
    requires cursor <= |lines| && chunk.newLines == chunk.oldLines
    requires PlaceChunk(lines, chunk, cursor).Success?
    ensures var edit := PlaceChunk(lines, chunk, cursor).value.0;
            FoundExactly(lines, chunk, edit) <==> ExactEdit(lines, edit)
  {
    ChunkFollowsContext(lines, chunk, cursor);
    var edit := PlaceChunk(lines, chunk, cursor).value.0;
    assert edit.newLines == chunk.oldLines[..edit.oldLen];
    hide Seek, PlaceChunk, Normalise;
    var removed := lines[edit.start..edit.start + edit.oldLen];
    assert forall k :: 0 <= k < edit.oldLen ==> removed[k] == lines[edit.start + k];
    assert FoundExactly(lines, chunk, edit) ==> edit.newLines == removed;
  }

  lemma {:induction false} MatchedExactlyIff(lines: seq<string>, chunks: seq<Chunk>, cursor: nat)
    requires cursor <= |lines| && ChangesNothing(chunks)
    requires PlaceChunks(lines, chunks, cursor).Success?
    ensures MatchedExactly(lines, chunks, cursor) <==>
            forall e :: e in PlaceChunks(lines, chunks, cursor).value ==> ExactEdit(lines, e)
  {
    hide PlaceChunk, FoundExactly, ExactEdit;
    if chunks == [] {
    } else {
      FoundExactlyIff(lines, chunks[0], cursor);
      ChunkFollowsContext(lines, chunks[0], cursor);
      var (edit, next) := PlaceChunk(lines, chunks[0], cursor).value;
      MatchedExactlyIff(lines, chunks[1..], next);
      assert PlaceChunks(lines, chunks, cursor).value == [edit] + PlaceChunks(lines, chunks[1..], next).value;
    }
  }

  /** No line of the file resembles an old line of a chunk without being equal to it. */
  ghost predicate NoLookalikes(lines: seq<string>, chunks: seq<Chunk>) {
    forall i, l, p :: 0 <= i < |chunks| && l in lines && p in chunks[i].oldLines && Normalise(l) == Normalise(p) ==>
      l == p
  }

  lemma AloneFoundExactly(lines: seq<string>, chunk: Chunk, edit: Replacement, cursor: nat)
    requires cursor <= |lines| && PlaceChunk(lines, chunk, cursor).Success?
    requires edit == PlaceChunk(lines, chunk, cursor).value.0
    requires forall l, p :: l in lines && p in chunk.oldLines && Normalise(l) == Normalise(p) ==> l == p
    ensures FoundExactly(lines, chunk, edit)
  {
    ChunkFollowsContext(lines, chunk, cursor);
    if chunk.oldLines != [] {
      hide PlaceChunk, Normalise;
      var pattern := chunk.oldLines[..edit.oldLen];
      forall k | 0 <= k < |pattern|
        ensures lines[edit.start + k] == pattern[k]
      {
        assert IgnorePunctuation.View(lines[edit.start + k]) == IgnorePunctuation.View(pattern[k]);
        assert pattern[k] == chunk.oldLines[k];
      }
    }
  }

  lemma {:induction false} NoLookalikesMatchExactly(lines: seq<string>, chunks: seq<Chunk>, cursor: nat)
    requires cursor <= |lines| && NoLookalikes(lines, chunks)
    requires PlaceChunks(lines, chunks, cursor).Success?
    ensures MatchedExactly(lines, chunks, cursor)
  {
    hide PlaceChunk, Normalise;
    if chunks == [] {
    } else {
      ChunkFollowsContext(lines, chunks[0], cursor);
      var (edit, next) := PlaceChunk(lines, chunks[0], cursor).value;
      AloneFoundExactly(lines, chunks[0], edit, cursor);
      assert NoLookalikes(lines, chunks[1..]) by {
        assert forall i :: 0 <= i < |chunks| - 1 ==> chunks[1..][i] == chunks[i + 1];
      }
      hide NoLookalikes, FoundExactly;
      NoLookalikesMatchExactly(lines, chunks[1..], next);
    }
  }

  lemma ExactKeepsLines(lines: seq<string>, chunks: seq<Chunk>)
    requires ChangesNothing(chunks) && UpdatedLines(lines, chunks).Success?
    requires MatchedExactly(lines, chunks, 0)
    ensures UpdatedLines(lines, chunks).value == lines
  {
    hide MatchedExactly, ExactEdit, PlaceChunk;
    var edits := Compute(lines, chunks).value;
    var placed := PlaceChunks(lines, chunks, 0).value;
    ComputedInBounds(lines, chunks);
    MatchedExactlyIff(lines, chunks, 0);
    SortKeepsMembers(placed);
    forall i | 0 <= i < |edits|
      ensures ExactEdit(lines, edits[i])
    {
      assert edits[i] in placed;
    }
    ApplyExact(lines, edits);
  }

  /** A patch that puts back the lines it removes, and all of whose chunks are found exactly, changes nothing
      exactly when the text has a clean end; overlapping edits and end-of-file chunks included. */
  lemma MatchedNoOpKeepsText(text: string, chunks: seq<Chunk>)
    requires ChangesNothing(chunks) && UpdatedText(text, chunks).Success?
    requires MatchedExactly(FileLines(text), chunks, 0)
    ensures UpdatedText(text, chunks).value == text <==> CleanEnd(text)
  {
    ExactKeepsLines(FileLines(text), chunks);
    ReadWriteBack(text);
  }

  /** In particular for a file none of whose lines merely resembles a line that the patch removes. */
  lemma ExactNoOpKeepsText(text: string, chunks: seq<Chunk>)
    requires ChangesNothing(chunks) && NoLookalikes(FileLines(text), chunks)
    requires UpdatedText(text, chunks).Success?
    ensures UpdatedText(text, chunks).value == text <==> CleanEnd(text)
  {
    NoLookalikesMatchExactly(FileLines(text), chunks, 0);
    MatchedNoOpKeepsText(text, chunks);
  }

  // ---------- Exactly when such a patch changes nothing ----------

  /** No line holds a newline, as no parsed line does. */
  predicate SingleLines(lines: seq<string>) {
    forall l :: l in lines ==> '\n' !in l
  }

  /** Lines without newlines, as many as the file has, are written to the file's own text exactly when
      they are its lines and its end is clean. */
  lemma WritesBackIff(text: string, lines: seq<string>)
    requires SingleLines(lines) && |lines| == |FileLines(text)|
    ensures FileText(lines) == text <==> lines == FileLines(text) && CleanEnd(text)
  {
    ReadWriteBack(text);
    var written := if EndsBlank(lines) then lines else lines + [""];
    assert forall l :: l in written ==> '\n' !in l;
    SplitJoin(written, '\n');
    hide Split, Join, CleanEnd;
    if FileText(lines) == text {
      assert Split(text, '\n') == written && EndsBlank(written);
      assert FileLines(text) == DropLast(written);
    }
  }

  lemma AllExactCons(lines: seq<string>, edits: seq<Replacement>)
    requires edits != []
    ensures (forall i :: 0 <= i < |edits| ==> ExactEdit(lines, edits[i])) <==>
            ExactEdit(lines, edits[0]) && forall i :: 0 <= i < |edits[1..]| ==> ExactEdit(lines, edits[1..][i])
  {
    hide ExactEdit;
    assert forall i :: 0 < i < |edits| ==> edits[i] == edits[1..][i - 1];
  }

  lemma SplitAtEdit(lines: seq<string>, edit: Replacement, pos: nat, tail: seq<string>)
    requires pos <= edit.start && edit.start + edit.oldLen <= |lines| && |edit.newLines| == edit.oldLen
    ensures lines[pos..edit.start] + edit.newLines + tail == lines[pos..] <==>
            ExactEdit(lines, edit) && tail == lines[edit.start + edit.oldLen..]
  {
    var next := edit.start + edit.oldLen;
    var lead, removed, rest := lines[pos..edit.start], lines[edit.start..next], lines[next..];
    assert lines[pos..] == lead + removed + rest;
    if lead + edit.newLines + tail == lead + removed + rest {
      assert (lead + edit.newLines + tail)[|lead|..|lead| + edit.oldLen] == edit.newLines;
      assert (lead + removed + rest)[|lead|..|lead| + edit.oldLen] == removed;
      assert (lead + edit.newLines + tail)[|lead| + edit.oldLen..] == tail;
      assert (lead + removed + rest)[|lead| + edit.oldLen..] == rest;
    }
  }

  predicate SameLengths(edits: seq<Replacement>) {
    forall i :: 0 <= i < |edits| ==> |edits[i].newLines| == edits[i].oldLen
  }

  /** The splice taken apart at its first edit, and what the other edits inherit. */
  lemma SpliceFirst(lines: seq<string>, edits: seq<Replacement>, pos: nat)
    requires Disjoint(edits) && InBounds(edits, |lines|) && pos <= |lines| && edits != []
    requires pos <= edits[0].start && SameLengths(edits)
    ensures var edit, rest := edits[0], edits[1..];
            var next := edit.start + edit.oldLen;
            && Disjoint(rest) && InBounds(rest, |lines|) && next <= |lines| && SameLengths(rest)
            && (rest != [] ==> next <= rest[0].start)
            && Splice(lines, edits, pos) == lines[pos..edit.start] + edit.newLines + Splice(lines, rest, next)
  {
    DisjointTail(edits, |lines|);
    assert forall i :: 0 <= i < |edits| - 1 ==> edits[1..][i] == edits[i + 1];
  }

  lemma {:induction false} SpliceKeepsIff(lines: seq<string>, edits: seq<Replacement>, pos: nat)
    requires Disjoint(edits) && InBounds(edits, |lines|) && pos <= |lines|
    requires edits != [] ==> pos <= edits[0].start
    requires SameLengths(edits)
    ensures Splice(lines, edits, pos) == lines[pos..] <==>
            forall i :: 0 <= i < |edits| ==> ExactEdit(lines, edits[i])
  {
    if edits == [] {
    } else {
      var edit, rest := edits[0], edits[1..];
      var next := edit.start + edit.oldLen;
      SpliceFirst(lines, edits, pos);
      assert |edit.newLines| == edit.oldLen;
      hide Disjoint, InBounds, SameLengths, Splice, ExactEdit;
      SpliceKeepsIff(lines, rest, next);
      SplitAtEdit(lines, edit, pos, Splice(lines, rest, next));
      AllExactCons(lines, edits);
    }
  }

  lemma NoOpEditsKeepLength(lines: seq<string>, chunks: seq<Chunk>)
    requires ChangesNothing(chunks) && Compute(lines, chunks).Success?
    ensures forall e :: e in Compute(lines, chunks).value ==> |e.newLines| == e.oldLen
  {
    hide PlaceChunk, Normalise;
    AllPlacedAlike(lines, chunks, 0);
    SortKeepsMembers(PlaceChunks(lines, chunks, 0).value);
    forall e | e in Compute(lines, chunks).value
      ensures |e.newLines| == e.oldLen
    {
      assert EditAlike(lines, e);
    }
  }

  /** With disjoint edits the lines are unchanged exactly when every chunk was found exactly. */
  lemma NoOpKeepsLinesIff(lines: seq<string>, chunks: seq<Chunk>)
    requires ChangesNothing(chunks) && UpdatedLines(lines, chunks).Success?
    requires Disjoint(Compute(lines, chunks).value)
    ensures UpdatedLines(lines, chunks).value == lines <==> MatchedExactly(lines, chunks, 0)
  {
    var edits := Compute(lines, chunks).value;
    var placed := PlaceChunks(lines, chunks, 0).value;
    ComputedInBounds(lines, chunks);
    MatchedExactlyIff(lines, chunks, 0);
    NoOpEditsKeepLength(lines, chunks);
    SortKeepsMembers(placed);
    BackToFrontIsSplice(lines, edits);
    hide PlaceChunk, MatchedExactly, ExactEdit, SortByStart, Disjoint, ApplyFromEnd, Splice;
    SpliceKeepsIff(lines, edits, 0);
    assert lines[0..] == lines;
    assert (forall i :: 0 <= i < |edits| ==> ExactEdit(lines, edits[i])) <==>
      (forall e :: e in placed ==> ExactEdit(lines, e));
  }

  lemma {:induction false} AppliedSingleLines(lines: seq<string>, edits: seq<Replacement>)
    requires SortedByStart(edits) && StartsWithin(edits, |lines|) && SingleLines(lines)
    requires forall i :: 0 <= i < |edits| ==> SingleLines(edits[i].newLines)
    ensures SingleLines(ApplyFromEnd(lines, edits))
  {
    if edits == [] {
    } else {
      assert forall i :: 0 <= i < |edits| - 1 ==> edits[1..][i] == edits[i + 1];
      AppliedSingleLines(lines, edits[1..]);
      assert SingleLines(edits[0].newLines);
    }
  }

  lemma {:induction false} PlacedSingleLines(lines: seq<string>, chunks: seq<Chunk>, cursor: nat)
    requires PlaceChunks(lines, chunks, cursor).Success?
    requires forall i :: 0 <= i < |chunks| ==> SingleLines(chunks[i].newLines)
    ensures forall e :: e in PlaceChunks(lines, chunks, cursor).value ==> SingleLines(e.newLines)
  {
    if chunks == [] {
    } else {
      var (edit, next) := PlaceChunk(lines, chunks[0], cursor).value;
      assert SingleLines(chunks[0].newLines);
      assert SingleLines(edit.newLines);
      hide PlaceChunk, SingleLines;
      assert forall i :: 0 <= i < |chunks| - 1 ==> chunks[1..][i] == chunks[i + 1];
      PlacedSingleLines(lines, chunks[1..], next);
      assert PlaceChunks(lines, chunks, cursor).value == [edit] + PlaceChunks(lines, chunks[1..], next).value;
    }
  }

  lemma UpdatedSingleLines(lines: seq<string>, chunks: seq<Chunk>)
    requires UpdatedLines(lines, chunks).Success? && SingleLines(lines)
    requires forall i :: 0 <= i < |chunks| ==> SingleLines(chunks[i].newLines)
    ensures SingleLines(UpdatedLines(lines, chunks).value)
  {
    hide SingleLines, PlaceChunk;
    var edits := Compute(lines, chunks).value;
    ComputedInBounds(lines, chunks);
    PlacedSingleLines(lines, chunks, 0);
    SortKeepsMembers(PlaceChunks(lines, chunks, 0).value);
    assert forall i :: 0 <= i < |edits| ==> edits[i] in edits;
    AppliedSingleLines(lines, edits);
  }

  lemma FileSingleLines(text: string)
    ensures SingleLines(FileLines(text))
  {
    JoinSplit(text, '\n');
  }

  /** A patch with disjoint edits that puts back the lines it removes changes nothing exactly when every
      chunk was found exactly and the text has a clean end. */
  lemma NoOpKeepsTextIff(text: string, chunks: seq<Chunk>)
    requires ChangesNothing(chunks) && UpdatedText(text, chunks).Success?
    requires forall i :: 0 <= i < |chunks| ==> SingleLines(chunks[i].newLines)
    requires Disjoint(Compute(FileLines(text), chunks).value)
    ensures UpdatedText(text, chunks).value == text <==> MatchedExactly(FileLines(text), chunks, 0) && CleanEnd(text)
  {
    hide FileLines, FileText, UpdatedLines, Compute, MatchedExactly, ChangesNothing, SingleLines, Disjoint, CleanEnd;
    var lines := FileLines(text);
    NoOpKeepsLines(lines, chunks);
    NoOpKeepsLinesIff(lines, chunks);
    FileSingleLines(text);
    UpdatedSingleLines(lines, chunks);
    WritesBackIff(text, UpdatedLines(lines, chunks).value);
  }
}
