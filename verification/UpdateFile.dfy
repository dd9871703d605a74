/** `compute_replacements` and `derive_new_contents_from_chunks`: turning the chunks of an update
    hunk into edits of a file and the file into its new contents. */
module UpdateFile {
  import opened Wrappers
  import opened Sorting
  import opened PatchSyntax
  import opened Replacements
  import opened SeekSequence

  datatype UpdateError =
    | ContextNotFound(context: string)
    | LinesNotFound(oldLines: seq<string>)

  // ---------- Sorting edits ----------

  const BY_START: (Replacement, Replacement) -> bool := (a: Replacement, b: Replacement) => a.start <= b.start

  /** `replacements.sort_by(..)` on the start index, which is stable. */
  function SortByStart(edits: seq<Replacement>): seq<Replacement> {
    SortBy(BY_START, edits)
  }

  lemma SortKeepsMembers(edits: seq<Replacement>)
    ensures multiset(SortByStart(edits)) == multiset(edits)
    ensures forall e :: e in SortByStart(edits) <==> e in edits
  {
    SortMembers(BY_START, edits);
    hide SortBy;
    forall e
      ensures e in SortByStart(edits) <==> e in edits
    {
      SameMembers(SortByStart(edits), edits, e);
    }
  }

  lemma SortSorts(edits: seq<Replacement>)
    ensures SortedByStart(SortByStart(edits))
  {
    SortSorted(BY_START, edits);
    hide SortBy;
    var sorted := SortByStart(edits);
    forall i, j | 0 <= i < j < |sorted|
      ensures sorted[i].start <= sorted[j].start
    {
      assert BY_START(sorted[i], sorted[j]);
    }
  }

  /** `a` ends before `b` starts. */
  predicate Before(a: Replacement, b: Replacement) {
    a.start + a.oldLen <= b.start
  }

  /** `a` was found first. Sorting leaves it in front of `b`, or moves it behind `b`; either way the
      one in front ends before the other starts. */
  predicate Compatible(a: Replacement, b: Replacement) {
    if b.start < a.start then Before(b, a) else Before(a, b)
  }

  predicate AllCompatible(edits: seq<Replacement>) {
    forall i, j :: 0 <= i < j < |edits| ==> Compatible(edits[i], edits[j])
  }

  predicate BeforeAll(first: Replacement, rest: seq<Replacement>) {
    forall e :: e in rest ==> Before(first, e)
  }

  predicate CompatibleWithAll(first: Replacement, rest: seq<Replacement>) {
    forall e :: e in rest ==> Compatible(first, e)
  }

  lemma DisjointUncons(first: Replacement, rest: seq<Replacement>)
    requires Disjoint([first] + rest)
    ensures Disjoint(rest) && BeforeAll(first, rest)
  {
    var r := [first] + rest;
    forall i, j | 0 <= i < j < |rest|
      ensures rest[i].start + rest[i].oldLen <= rest[j].start
    {
      assert r[i + 1] == rest[i] && r[j + 1] == rest[j];
    }
    forall j | 0 <= j < |rest|
      ensures Before(first, rest[j])
    {
      assert r[0] == first && r[j + 1] == rest[j];
    }
  }

  lemma DisjointCons(first: Replacement, rest: seq<Replacement>)
    ensures Disjoint([first] + rest) <==> Disjoint(rest) && BeforeAll(first, rest)
  {
    var r := [first] + rest;
    if Disjoint(r) {
      DisjointUncons(first, rest);
    }
    if Disjoint(rest) && BeforeAll(first, rest) {
      forall i, j | 0 <= i < j < |r|
        ensures r[i].start + r[i].oldLen <= r[j].start
      {
        assert r[j] == rest[j - 1] && rest[j - 1] in rest;
        assert i > 0 ==> r[i] == rest[i - 1];
      }
    }
  }

  lemma InsertedBefore(edit: Replacement, rest: seq<Replacement>, first: Replacement)
    ensures BeforeAll(first, Insert(BY_START, edit, rest)) <==> Before(first, edit) && BeforeAll(first, rest)
  {
    Sorting.InsertMembers(BY_START, edit, rest);
    var tail := Insert(BY_START, edit, rest);
    forall e
      ensures e in tail <==> e == edit || e in rest
    {
      assert e in tail <==> e in multiset(tail);
    }
  }

  lemma {:induction false} InsertDisjoint(edit: Replacement, sorted: seq<Replacement>)
    requires SortedByStart(sorted)
    ensures Disjoint(Insert(BY_START, edit, sorted)) <==> Disjoint(sorted) && CompatibleWithAll(edit, sorted)
  {
    if sorted == [] || edit.start <= sorted[0].start {
      DisjointCons(edit, sorted);
      forall e | e in sorted
        ensures Before(edit, e) <==> Compatible(edit, e)
      {
        var j :| 0 <= j < |sorted| && sorted[j] == e;
        assert sorted[0].start <= e.start;
      }
    } else {
      var rest := sorted[1..];
      assert sorted == [sorted[0]] + rest;
      InsertDisjoint(edit, rest);
      DisjointCons(sorted[0], Insert(BY_START, edit, rest));
      DisjointCons(sorted[0], rest);
      InsertedBefore(edit, rest, sorted[0]);
      assert Compatible(edit, sorted[0]) <==> Before(sorted[0], edit);
      assert CompatibleWithAll(edit, sorted) <==> Compatible(edit, sorted[0]) && CompatibleWithAll(edit, rest);
    }
  }

  lemma AllCompatibleCons(first: Replacement, rest: seq<Replacement>)
    ensures AllCompatible([first] + rest) <==> AllCompatible(rest) && CompatibleWithAll(first, rest)
  {
    var r := [first] + rest;
    assert forall j :: 0 <= j < |rest| ==> r[j + 1] == rest[j];
    if AllCompatible(r) {
      forall i, j | 0 <= i < j < |rest|
        ensures Compatible(rest[i], rest[j])
      {
        assert Compatible(r[i + 1], r[j + 1]);
      }
      forall e | e in rest
        ensures Compatible(first, e)
      {
        var j :| 0 <= j < |rest| && rest[j] == e;
        assert Compatible(r[0], r[j + 1]);
      }
    }
    if AllCompatible(rest) && CompatibleWithAll(first, rest) {
      forall i, j | 0 <= i < j < |r|
        ensures Compatible(r[i], r[j])
      {
        assert r[j] == rest[j - 1] && r[j] in rest;
        assert i > 0 ==> r[i] == rest[i - 1];
      }
    }
  }

  /** The sorted edits do not overlap exactly when the edits, in the order they were found, are
      pairwise compatible. */
  lemma {:induction false} SortedDisjointIffCompatible(edits: seq<Replacement>)
    ensures Disjoint(SortByStart(edits)) <==> AllCompatible(edits)
  {
    if edits == [] {
    } else {
      var rest := edits[1..];
      assert edits == [edits[0]] + rest;
      SortedDisjointIffCompatible(rest);
      SortSorts(rest);
      SortKeepsMembers(rest);
      InsertDisjoint(edits[0], SortByStart(rest));
      AllCompatibleCons(edits[0], rest);
      assert CompatibleWithAll(edits[0], SortByStart(rest)) <==> CompatibleWithAll(edits[0], rest);
    }
  }

  // ---------- Locating one chunk ----------

  function DropLast(lines: seq<string>): seq<string>
    requires lines != []
  {
    lines[..|lines| - 1]
  }

  predicate EndsBlank(lines: seq<string>) {
    lines != [] && lines[|lines| - 1] == ""
  }

  /** The old lines as given or, if they are nowhere, without the empty last line that stands for
      the file's final newline. */
  function Locate(lines: seq<string>, chunk: Chunk, cursor: nat): (r: Option<Replacement>) {
    var found := Seek(lines, chunk.oldLines, cursor, chunk.isEndOfFile);
    if found.Some? then Some(Replacement(found.value, |chunk.oldLines|, chunk.newLines))
    else if EndsBlank(chunk.oldLines) then
      var pattern := DropLast(chunk.oldLines);
      var added := if EndsBlank(chunk.newLines) then DropLast(chunk.newLines) else chunk.newLines;
      var retried := Seek(lines, pattern, cursor, chunk.isEndOfFile);
      if retried.Some? then Some(Replacement(retried.value, |pattern|, added)) else None
    else None
  }

  /** The cursor moves past the context line. */
  function AfterContext(lines: seq<string>, chunk: Chunk, cursor: nat): (r: Result<nat, UpdateError>) {
    match chunk.changeContext
    case None => Success(cursor)
    case Some(context) =>
      var found := Seek(lines, [context], cursor, false);
      if found.Some? then Success(found.value + 1) else Failure(ContextNotFound(context))
  }

  /** Pure additions go to the end, but in front of a final empty line. */
  function InsertionIndex(lines: seq<string>): nat {
    if EndsBlank(lines) then |lines| - 1 else |lines|
  }

  /** One chunk: its edit, and where the next chunk is looked for. */
  function PlaceChunk(lines: seq<string>, chunk: Chunk, cursor: nat): (r: Result<(Replacement, nat), UpdateError>) {
    var start :- AfterContext(lines, chunk, cursor);
    if chunk.oldLines == [] then
      Success((Replacement(InsertionIndex(lines), 0, chunk.newLines), start))
    else
      var edit := Locate(lines, chunk, start);
      if edit.Some? then Success((edit.value, edit.value.start + edit.value.oldLen))
      else Failure(LinesNotFound(chunk.oldLines))
  }

  /** All chunks, in the order in which they are found. */
  function PlaceChunks(lines: seq<string>, chunks: seq<Chunk>, cursor: nat)
    : (r: Result<seq<Replacement>, UpdateError>)
  {
    if chunks == [] then Success([])
    else
      var placed :- PlaceChunk(lines, chunks[0], cursor);
      var rest :- PlaceChunks(lines, chunks[1..], placed.1);
      Success([placed.0] + rest)
  }

  function Compute(lines: seq<string>, chunks: seq<Chunk>): (r: Result<seq<Replacement>, UpdateError>) {
    var placed :- PlaceChunks(lines, chunks, 0);
    Success(SortByStart(placed))
  }

  /** Edits already placed, in front of the outcome for the remaining chunks. */
  function Prepend(placed: seq<Replacement>, rest: Result<seq<Replacement>, UpdateError>)
    : Result<seq<Replacement>, UpdateError>
  {
    if rest.Success? then Success(placed + rest.value) else rest
  }

  /** Placing the next chunk moves its edit to the placed ones, or decides the outcome. */
  lemma PrependStep(lines: seq<string>, chunks: seq<Chunk>, n: nat, cursor: nat, placed: seq<Replacement>)
    requires n < |chunks|
    ensures var all := Prepend(placed, PlaceChunks(lines, chunks[n..], cursor));
            match PlaceChunk(lines, chunks[n], cursor) {
              case Success((edit, next)) =>
                all == Prepend(placed + [edit], PlaceChunks(lines, chunks[n + 1..], next))
              case Failure(error) => all == Failure(error)
            }
  {
    assert chunks[n..][1..] == chunks[n + 1..] && chunks[n..][0] == chunks[n];
    if PlaceChunk(lines, chunks[n], cursor).Success? {
      var (edit, next) := PlaceChunk(lines, chunks[n], cursor).value;
      var rest := PlaceChunks(lines, chunks[n + 1..], next);
      if rest.Success? {
        assert placed + ([edit] + rest.value) == placed + [edit] + rest.value;
      }
    }
  }

  /** Finding the old lines, with the retry for a pattern that ends in a blank line. */
  method LocateOldLines(lines: seq<string>, chunk: Chunk, lineIndex: nat) returns (r: Option<Replacement>)
    ensures r == Locate(lines, chunk, lineIndex)
  {
    hide Seek;
    var pattern := chunk.oldLines;
    var found := SeekSequence.SeekSequence(lines, pattern, lineIndex, chunk.isEndOfFile);
    var newSlice := chunk.newLines;
    if found.None? && EndsBlank(pattern) {
      pattern := pattern[..|pattern| - 1];
      if EndsBlank(newSlice) {
        newSlice := newSlice[..|newSlice| - 1];
      }
      found := SeekSequence.SeekSequence(lines, pattern, lineIndex, chunk.isEndOfFile);
    }
    if found.Some? {
      return Some(Replacement(found.value, |pattern|, newSlice));
    } else {
      return None;
    }
  }

  /** Finding the context line, if the chunk has one. */
  method SkipContext(lines: seq<string>, chunk: Chunk, lineIndex: nat) returns (r: Result<nat, UpdateError>)
    ensures r == AfterContext(lines, chunk, lineIndex)
  {
    if chunk.changeContext.None? {
      return Success(lineIndex);
    }
    var ctxLine := chunk.changeContext.value;
    var idx := SeekSequence.SeekSequence(lines, [ctxLine], lineIndex, false);
    if idx.Some? {
      return Success(idx.value + 1);
    } else {
      return Failure(ContextNotFound(ctxLine));
    }
  }

  /** The body of the loop over chunks. */
  method PlaceOneChunk(lines: seq<string>, chunk: Chunk, lineIndex: nat)
    returns (r: Result<(Replacement, nat), UpdateError>)
    ensures r == PlaceChunk(lines, chunk, lineIndex)
  {
    var start :- SkipContext(lines, chunk, lineIndex);
    if chunk.oldLines == [] {
      var insertionIdx := if EndsBlank(lines) then |lines| - 1 else |lines|;
      return Success((Replacement(insertionIdx, 0, chunk.newLines), start));
    }
    var found := LocateOldLines(lines, chunk, start);
    if found.Some? {
      return Success((found.value, found.value.start + found.value.oldLen));
    } else {
      return Failure(LinesNotFound(chunk.oldLines));
    }
  }

  method ComputeReplacements(lines: seq<string>, chunks: seq<Chunk>)
    returns (r: Result<seq<Replacement>, UpdateError>)
    ensures r == Compute(lines, chunks)
  {
    var replacements: seq<Replacement> := [];
    var lineIndex: nat := 0;
    ghost var all := PlaceChunks(lines, chunks, 0);
    var n := 0;
    assert chunks[0..] == chunks;
    assert all == Prepend(replacements, all) by {
      if all.Success? {
        assert replacements + all.value == all.value;
      }
    }
    while n < |chunks|
      invariant 0 <= n <= |chunks|
      invariant all == Prepend(replacements, PlaceChunks(lines, chunks[n..], lineIndex))
    {
      PrependStep(lines, chunks, n, lineIndex, replacements);
      var placed :- PlaceOneChunk(lines, chunks[n], lineIndex);
      replacements := replacements + [placed.0];
      lineIndex := placed.1;
      n := n + 1;
    }
    assert chunks[n..] == [];
    assert replacements + [] == replacements;
    r := Success(SortByStart(replacements));
  }

  // ---------- Where chunks are found ----------

  /** The lines that an edit removes: the chunk's old lines, perhaps without a blank last one. */
  ghost predicate Replaces(lines: seq<string>, chunk: Chunk, edit: Replacement) {
    && edit.start + edit.oldLen <= |lines|
    && (edit.oldLen == |chunk.oldLines| || (edit.oldLen + 1 == |chunk.oldLines| && EndsBlank(chunk.oldLines)))
    && IgnorePunctuation.Matches(lines, chunk.oldLines[..edit.oldLen], edit.start)
  }

  lemma LocateFacts(lines: seq<string>, chunk: Chunk, cursor: nat)
    requires cursor <= |lines| && chunk.oldLines != []
    requires Locate(lines, chunk, cursor).Some?
    ensures var edit := Locate(lines, chunk, cursor).value;
            && Replaces(lines, chunk, edit)
            && (!chunk.isEndOfFile || edit.oldLen == 0 ==> cursor <= edit.start)
            && (chunk.isEndOfFile && edit.oldLen > 0 ==> edit.start + edit.oldLen == |lines|)
  {
    var edit := Locate(lines, chunk, cursor).value;
    if Seek(lines, chunk.oldLines, cursor, chunk.isEndOfFile).Some? {
      SeekInBounds(lines, chunk.oldLines, cursor, chunk.isEndOfFile);
      assert chunk.oldLines[..edit.oldLen] == chunk.oldLines;
    } else {
      var pattern := DropLast(chunk.oldLines);
      assert chunk.oldLines[..edit.oldLen] == pattern;
      if pattern != [] {
        SeekInBounds(lines, pattern, cursor, chunk.isEndOfFile);
      }
    }
  }

  /** The context line is at or after the cursor and just before the new cursor. */
  lemma ContextFacts(lines: seq<string>, chunk: Chunk, cursor: nat)
    requires cursor <= |lines|
    requires AfterContext(lines, chunk, cursor).Success?
    ensures var start := AfterContext(lines, chunk, cursor).value;
            && cursor <= start <= |lines|
            && (chunk.changeContext.Some? ==>
                  && cursor < start
                  && Normalise(lines[start - 1]) == Normalise(chunk.changeContext.value))
  {
    if chunk.changeContext.Some? {
      var context := chunk.changeContext.value;
      SeekInBounds(lines, [context], cursor, false);
      var i := Seek(lines, [context], cursor, false).value;
      assert IgnorePunctuation.View(lines[i + 0]) == IgnorePunctuation.View([context][0]);
    }
  }

  /** A chunk's edit lies in the file. Unless it is an end-of-file chunk, it removes lines that come
      after its context line and after everything the previous chunks removed. */
  lemma ChunkFollowsContext(lines: seq<string>, chunk: Chunk, cursor: nat)
    requires cursor <= |lines|
    requires PlaceChunk(lines, chunk, cursor).Success?
    ensures var start := AfterContext(lines, chunk, cursor).value;
            var (edit, next) := PlaceChunk(lines, chunk, cursor).value;
            && cursor <= start <= |lines|
            && (chunk.changeContext.Some? ==>
                  cursor < start && Normalise(lines[start - 1]) == Normalise(chunk.changeContext.value))
            && edit.start + edit.oldLen <= |lines|
            && start <= next <= |lines|
            && (chunk.oldLines != [] ==> Replaces(lines, chunk, edit) && next == edit.start + edit.oldLen)
            && (chunk.oldLines != [] && !chunk.isEndOfFile ==> start <= edit.start)
  {
    ContextFacts(lines, chunk, cursor);
    if chunk.oldLines != [] {
      LocateFacts(lines, chunk, AfterContext(lines, chunk, cursor).value);
    }
  }

  // ---------- Edits are in bounds, and disjoint when nothing looks backwards ----------

  lemma {:induction false} PlacedInBounds(lines: seq<string>, chunks: seq<Chunk>, cursor: nat)
    requires cursor <= |lines|
    requires PlaceChunks(lines, chunks, cursor).Success?
    ensures InBounds(PlaceChunks(lines, chunks, cursor).value, |lines|)
  {
    if chunks == [] {
    } else {
      ChunkFollowsContext(lines, chunks[0], cursor);
      PlacedInBounds(lines, chunks[1..], PlaceChunk(lines, chunks[0], cursor).value.1);
    }
  }

  /** Whatever the chunks, a successful computation returns sorted edits inside the file. */
  lemma ComputedInBounds(lines: seq<string>, chunks: seq<Chunk>)
    requires Compute(lines, chunks).Success?
    ensures var edits := Compute(lines, chunks).value;
            SortedByStart(edits) && InBounds(edits, |lines|) && StartsWithin(edits, |lines|)
  {
    var placed := PlaceChunks(lines, chunks, 0).value;
    PlacedInBounds(lines, chunks, 0);
    SortSorts(placed);
    SortKeepsMembers(placed);
    var edits := SortByStart(placed);
    forall i | 0 <= i < |edits|
      ensures edits[i].start + edits[i].oldLen <= |lines|
    {
      assert edits[i] in placed;
    }
  }

  /** Only chunks without old lines are marked as end-of-file chunks. */
  predicate NoEndOfFileMatch(chunks: seq<Chunk>) {
    forall i :: 0 <= i < |chunks| && chunks[i].isEndOfFile ==> chunks[i].oldLines == []
  }

  /** No chunk inserts in front of a final blank line. */
  predicate AdditionsGoLast(lines: seq<string>, chunks: seq<Chunk>) {
    EndsBlank(lines) ==> forall i :: 0 <= i < |chunks| ==> chunks[i].oldLines != []
  }

  predicate AllFrom(edits: seq<Replacement>, cursor: nat) {
    forall e :: e in edits ==> cursor <= e.start
  }

  lemma {:induction false} PlacedAreCompatible(lines: seq<string>, chunks: seq<Chunk>, cursor: nat)
    requires cursor <= |lines|
    requires PlaceChunks(lines, chunks, cursor).Success?
    requires NoEndOfFileMatch(chunks) && AdditionsGoLast(lines, chunks)
    ensures AllFrom(PlaceChunks(lines, chunks, cursor).value, cursor)
    ensures AllCompatible(PlaceChunks(lines, chunks, cursor).value)
  {
    if chunks == [] {
    } else {
      var (edit, next) := PlaceChunk(lines, chunks[0], cursor).value;
      ChunkFollowsContext(lines, chunks[0], cursor);
      assert forall i :: 0 <= i < |chunks| - 1 ==> chunks[1..][i] == chunks[i + 1];
      PlacedAreCompatible(lines, chunks[1..], next);
      PlacedInBounds(lines, chunks[1..], next);
      var rest := PlaceChunks(lines, chunks[1..], next).value;
      forall e | e in rest
        ensures Compatible(edit, e)
      {
        var j :| 0 <= j < |rest| && rest[j] == e;
        assert rest[j].start + rest[j].oldLen <= |lines|;
        assert next <= e.start;
      }
      AllCompatibleCons(edit, rest);
      assert PlaceChunks(lines, chunks, cursor).value == [edit] + rest;
    }
  }

  /** With no end-of-file match and no insertion in front of a final blank line, the edits do not
      overlap, so applying them from the back is the splice. */
  lemma EditsAreDisjoint(lines: seq<string>, chunks: seq<Chunk>)
    requires Compute(lines, chunks).Success?
    requires NoEndOfFileMatch(chunks) && AdditionsGoLast(lines, chunks)
    ensures var edits := Compute(lines, chunks).value;
            && Disjoint(edits) && InBounds(edits, |lines|)
            && SortedByStart(edits) && StartsWithin(edits, |lines|)
            && ApplyFromEnd(lines, edits) == Splice(lines, edits, 0)
  {
    ComputedInBounds(lines, chunks);
    PlacedAreCompatible(lines, chunks, 0);
    SortedDisjointIffCompatible(PlaceChunks(lines, chunks, 0).value);
    BackToFrontIsSplice(lines, Compute(lines, chunks).value);
  }
}
