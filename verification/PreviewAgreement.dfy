/** When the preview of a patch agrees with its execution, although it reads every file before any hunk
    has changed it. */
module PreviewAgreement {
  import opened Wrappers
  import opened Text
  import opened PatchSyntax
  import opened SeekSequence
  import opened UpdateFile
  import opened FileContents
  import opened PatchFiles

  // ---------- The previewed state of the files ----------

  predicate MovesTo(changes: map<Path, Change>, source: Path, dest: Path) {
    source in changes && changes[source].Update? && changes[source].movePath == Some(dest)
  }

  /** What the change of `path` leaves there: nothing where its contents are moved to another path. */
  function AfterChange(path: Path, change: Change): Option<File> {
    match change
    case Add(content) => Some(TextFile(content))
    case Delete(_) => None
    case Update(movePath, newContent) =>
      if movePath.Some? && movePath.value != path then None else Some(TextFile(newContent))
  }

  /** A changed path holds what its change leaves, a destination holds the moved contents, and any
      other path is left alone. */
  ghost predicate OverwrittenAt(before: Files, changes: map<Path, Change>, after: Files, q: Path) {
    if q in changes then Lookup(after, q) == AfterChange(q, changes[q])
    else
      && (forall p :: MovesTo(changes, p, q) ==> Lookup(after, q) == Some(TextFile(changes[p].newContent)))
      && ((forall p :: !MovesTo(changes, p, q)) ==> Lookup(after, q) == Lookup(before, q))
  }

  /** `after` is exactly `before` overwritten by the changes. */
  ghost predicate Overwritten(before: Files, changes: map<Path, Change>, after: Files) {
    forall q: Path :: OverwrittenAt(before, changes, after, q)
  }

  // ---------- Hunks that get along ----------

  function Source(cwd: Path, hunk: Hunk): Path {
    Resolve(cwd, hunk.path)
  }

  predicate IsMove(hunk: Hunk) {
    hunk.UpdateFile? && hunk.movePath.Some?
  }

  /** The paths a hunk reads or writes: its source and its destination. */
  function Touched(cwd: Path, hunk: Hunk): seq<Path> {
    [Source(cwd, hunk)] + if IsMove(hunk) then [Resolve(cwd, hunk.movePath.value)] else []
  }

  /** A move is to another path than the one it is from. */
  predicate MovesElsewhere(cwd: Path, hunk: Hunk) {
    IsMove(hunk) ==> Resolve(cwd, hunk.movePath.value) != Source(cwd, hunk)
  }

  predicate Removes(cwd: Path, hunk: Hunk, q: Path) {
    (hunk.DeleteFile? || IsMove(hunk)) && Source(cwd, hunk) == q
  }

  function Destination(cwd: Path, hunk: Hunk): Path
    requires IsMove(hunk)
  {
    Resolve(cwd, hunk.movePath.value)
  }

  predicate MovesAway(cwd: Path, hunk: Hunk, q: Path) {
    IsMove(hunk) && Source(cwd, hunk) == q
  }

  /** An update, and the destination of a move, come before anything else that touches the path; a deleted
      file was not removed before; and no file is added where one was moved away. */
  predicate Follows(cwd: Path, earlier: Hunk, later: Hunk) {
    match later
    case AddFile(_, _) => !MovesAway(cwd, earlier, Source(cwd, later))
    case DeleteFile(_) => !Removes(cwd, earlier, Source(cwd, later))
    case UpdateFile(_, _, _) => forall q :: q in Touched(cwd, later) ==> q !in Touched(cwd, earlier)
  }

  predicate GetAlong(cwd: Path, hunks: seq<Hunk>) {
    && (forall i :: 0 <= i < |hunks| ==> MovesElsewhere(cwd, hunks[i]))
    && (forall i, j :: 0 <= i < j < |hunks| ==> Follows(cwd, hunks[i], hunks[j]))
  }

  /** No file is read after an earlier hunk has touched it. */
  predicate ReadsUntouched(cwd: Path, hunks: seq<Hunk>) {
    forall i, j :: 0 <= i < j < |hunks| && !hunks[j].AddFile? ==> Source(cwd, hunks[j]) !in Touched(cwd, hunks[i])
  }

  /** No path is touched twice. */
  predicate DistinctPaths(cwd: Path, hunks: seq<Hunk>) {
    && (forall i :: 0 <= i < |hunks| ==> MovesElsewhere(cwd, hunks[i]))
    && forall i, j, q :: 0 <= i < j < |hunks| && q in Touched(cwd, hunks[j]) ==> q !in Touched(cwd, hunks[i])
  }

  lemma SourceIsTouched(cwd: Path, hunk: Hunk)
    ensures Source(cwd, hunk) in Touched(cwd, hunk)
  {
    assert Touched(cwd, hunk)[0] == Source(cwd, hunk);
  }

  lemma DistinctPathsGetAlong(cwd: Path, hunks: seq<Hunk>)
    requires DistinctPaths(cwd, hunks)
    ensures GetAlong(cwd, hunks) && ReadsUntouched(cwd, hunks)
  {
    hide Resolve;
    forall i, j | 0 <= i < j < |hunks|
      ensures Follows(cwd, hunks[i], hunks[j])
      ensures Source(cwd, hunks[j]) !in Touched(cwd, hunks[i])
    {
      SourceIsTouched(cwd, hunks[i]);
      SourceIsTouched(cwd, hunks[j]);
    }
  }

  // ---------- What earlier hunks have done ----------

  predicate TouchedBy(cwd: Path, seen: seq<Hunk>, q: Path) {
    exists i :: 0 <= i < |seen| && q in Touched(cwd, seen[i])
  }

  predicate RemovedBy(cwd: Path, seen: seq<Hunk>, q: Path) {
    exists i :: 0 <= i < |seen| && Removes(cwd, seen[i], q)
  }

  predicate MovedAwayBy(cwd: Path, seen: seq<Hunk>, q: Path) {
    exists i :: 0 <= i < |seen| && MovesAway(cwd, seen[i], q)
  }

  ghost predicate AsBefore(before: Files, changes: map<Path, Change>, now: Files, q: Path) {
    Lookup(now, q) == Lookup(before, q) && q !in changes && forall p :: !MovesTo(changes, p, q)
  }

  /** `now` is `before` overwritten by the changes of the hunks in `seen`, and differs from it only where
      they touched it. */
  ghost predicate Tracks(before: Files, changes: map<Path, Change>, now: Files, cwd: Path, seen: seq<Hunk>) {
    && Overwritten(before, changes, now)
    && (forall q :: TouchedBy(cwd, seen, q) || AsBefore(before, changes, now, q))
    && (forall p, q :: MovesTo(changes, p, q) ==> MovedAwayBy(cwd, seen, p))
    && (forall q :: q in before && q !in now ==> RemovedBy(cwd, seen, q))
  }

  lemma NothingSeen(files: Files, cwd: Path)
    ensures Tracks(files, map[], files, cwd, [])
  {
  }

  lemma SeenSnoc(cwd: Path, seen: seq<Hunk>, hunk: Hunk, q: Path)
    ensures TouchedBy(cwd, seen + [hunk], q) <==> TouchedBy(cwd, seen, q) || q in Touched(cwd, hunk)
    ensures RemovedBy(cwd, seen + [hunk], q) <==> RemovedBy(cwd, seen, q) || Removes(cwd, hunk, q)
    ensures MovedAwayBy(cwd, seen + [hunk], q) <==> MovedAwayBy(cwd, seen, q) || MovesAway(cwd, hunk, q)
  {
    hide Touched, Removes, MovesAway;
    var all := seen + [hunk];
    assert all[|seen|] == hunk && forall i :: 0 <= i < |seen| ==> all[i] == seen[i];
  }

  /** The new changes leave `q` as the old ones did, and so does the file system. */
  lemma SameAt(before: Files, changes: map<Path, Change>, now: Files, path: Path, change: Change, next: Files, q: Path)
    requires OverwrittenAt(before, changes, now, q)
    requires q != path && Lookup(next, q) == Lookup(now, q)
    requires !MovesTo(changes, path, q) && !MovesTo(changes[path := change], path, q)
    ensures OverwrittenAt(before, changes[path := change], next, q)
  {
    var all := changes[path := change];
    assert forall p :: MovesTo(all, p, q) <==> MovesTo(changes, p, q);
  }

  ghost predicate FollowsAll(cwd: Path, seen: seq<Hunk>, hunk: Hunk) {
    forall i :: 0 <= i < |seen| ==> Follows(cwd, seen[i], hunk)
  }

  lemma DestinationUntouched(cwd: Path, seen: seq<Hunk>, hunk: Hunk, q: Path)
    requires FollowsAll(cwd, seen, hunk) && hunk.UpdateFile? && q in Touched(cwd, hunk)
    ensures !TouchedBy(cwd, seen, q)
  {
    hide Touched;
    forall i | 0 <= i < |seen|
      ensures q !in Touched(cwd, seen[i])
    {
      assert Follows(cwd, seen[i], hunk);
    }
  }

  lemma StepOverwritesAt(before: Files, changes: map<Path, Change>, now: Files, cwd: Path, seen: seq<Hunk>,
                         hunk: Hunk, q: Path)
    requires Tracks(before, changes, now, cwd, seen) && FollowsAll(cwd, seen, hunk) && MovesElsewhere(cwd, hunk)
    requires PreviewHunk(before, cwd, hunk).Success? && ExecuteHunk(now, cwd, hunk).Success?
    requires hunk.UpdateFile? ==> Lookup(now, Source(cwd, hunk)) == Lookup(before, Source(cwd, hunk))
    requires forall q' :: !MovesTo(changes, Source(cwd, hunk), q')
    ensures OverwrittenAt(before, changes[Source(cwd, hunk) := PreviewHunk(before, cwd, hunk).value],
                          ExecuteHunk(now, cwd, hunk).value, q)
  {
    hide UpdatedText, Resolve;
    var path := Source(cwd, hunk);
    var change := PreviewHunk(before, cwd, hunk).value;
    var all := changes[path := change];
    var next := ExecuteHunk(now, cwd, hunk).value;
    assert OverwrittenAt(before, changes, now, q);
    if q != path {
      if IsMove(hunk) && q == Resolve(cwd, hunk.movePath.value) {
        assert Touched(cwd, hunk)[1] == q;
        DestinationUntouched(cwd, seen, hunk, q);
        assert AsBefore(before, changes, now, q);
        assert MovesTo(all, path, q);
        forall p | MovesTo(all, p, q)
          ensures p == path
        {
          assert p == path || MovesTo(changes, p, q);
        }
      } else {
        assert !MovesTo(all, path, q);
        assert Lookup(next, q) == Lookup(now, q);
        SameAt(before, changes, now, path, change, next, q);
      }
    }
  }

  lemma NotMovedAway(cwd: Path, seen: seq<Hunk>, hunk: Hunk)
    requires FollowsAll(cwd, seen, hunk)
    ensures !MovedAwayBy(cwd, seen, Source(cwd, hunk))
  {
    hide Resolve;
    forall i | 0 <= i < |seen|
      ensures !MovesAway(cwd, seen[i], Source(cwd, hunk))
    {
      assert Follows(cwd, seen[i], hunk);
      SourceIsTouched(cwd, seen[i]);
      SourceIsTouched(cwd, hunk);
    }
  }

  lemma NotRemoved(cwd: Path, seen: seq<Hunk>, hunk: Hunk)
    requires FollowsAll(cwd, seen, hunk) && hunk.DeleteFile?
    ensures !RemovedBy(cwd, seen, Source(cwd, hunk))
  {
    hide Removes, Resolve;
    forall i | 0 <= i < |seen|
      ensures !Removes(cwd, seen[i], Source(cwd, hunk))
    {
      assert Follows(cwd, seen[i], hunk);
    }
  }

  lemma SourceUntouched(cwd: Path, seen: seq<Hunk>, hunk: Hunk)
    requires FollowsAll(cwd, seen, hunk) && hunk.UpdateFile?
    ensures !TouchedBy(cwd, seen, Source(cwd, hunk))
  {
    SourceIsTouched(cwd, hunk);
    DestinationUntouched(cwd, seen, hunk, Source(cwd, hunk));
  }

  /** The hunk's own change: what its execution leaves at each path. */
  lemma StepOverwrites(before: Files, changes: map<Path, Change>, now: Files, cwd: Path, seen: seq<Hunk>, hunk: Hunk)
    requires Tracks(before, changes, now, cwd, seen) && FollowsAll(cwd, seen, hunk) && MovesElsewhere(cwd, hunk)
    requires PreviewHunk(before, cwd, hunk).Success?
    ensures ExecuteHunk(now, cwd, hunk).Success?
    ensures forall q :: q !in Touched(cwd, hunk) ==> Lookup(ExecuteHunk(now, cwd, hunk).value, q) == Lookup(now, q)
    ensures forall q :: q in now && q !in ExecuteHunk(now, cwd, hunk).value ==> Removes(cwd, hunk, q)
    ensures Overwritten(before, changes[Source(cwd, hunk) := PreviewHunk(before, cwd, hunk).value],
                        ExecuteHunk(now, cwd, hunk).value)
  {
    hide UpdatedText, Resolve;
    var path := Source(cwd, hunk);
    var change := PreviewHunk(before, cwd, hunk).value;
    var all := changes[path := change];
    assert Touched(cwd, hunk)[0] == path;
    assert !MovedAwayBy(cwd, seen, path) by { NotMovedAway(cwd, seen, hunk); }
    assert forall q :: !MovesTo(changes, path, q);
    if hunk.DeleteFile? {
      assert path in now by { NotRemoved(cwd, seen, hunk); }
    }
    if hunk.UpdateFile? {
      assert Lookup(now, path) == Lookup(before, path) by { SourceUntouched(cwd, seen, hunk); }
    }
    assert ExecuteHunk(now, cwd, hunk).Success?;
    var next := ExecuteHunk(now, cwd, hunk).value;
    if IsMove(hunk) {
      assert Touched(cwd, hunk)[1] == Resolve(cwd, hunk.movePath.value);
    }
    hide ExecuteHunk, PreviewHunk;
    forall q: Path
      ensures OverwrittenAt(before, all, next, q)
    {
      StepOverwritesAt(before, changes, now, cwd, seen, hunk, q);
    }
  }

  lemma ChangeMoves(files: Files, cwd: Path, hunk: Hunk)
    requires PreviewHunk(files, cwd, hunk).Success?
    ensures var change := PreviewHunk(files, cwd, hunk).value;
            change.Update? && change.movePath.Some? ==>
              IsMove(hunk) && change.movePath.value in Touched(cwd, hunk) && MovesAway(cwd, hunk, Source(cwd, hunk))
  {
    hide UpdatedText, Resolve;
    if IsMove(hunk) {
      assert Touched(cwd, hunk)[1] == Resolve(cwd, hunk.movePath.value);
    }
  }

  /** One more hunk that gets along with the earlier ones. */
  lemma TracksStep(before: Files, changes: map<Path, Change>, now: Files, cwd: Path, seen: seq<Hunk>, hunk: Hunk)
    requires Tracks(before, changes, now, cwd, seen) && FollowsAll(cwd, seen, hunk) && MovesElsewhere(cwd, hunk)
    requires PreviewHunk(before, cwd, hunk).Success?
    ensures ExecuteHunk(now, cwd, hunk).Success?
    ensures Tracks(before, changes[Source(cwd, hunk) := PreviewHunk(before, cwd, hunk).value],
                   ExecuteHunk(now, cwd, hunk).value, cwd, seen + [hunk])
  {
    StepOverwrites(before, changes, now, cwd, seen, hunk);
    var path := Source(cwd, hunk);
    var change := PreviewHunk(before, cwd, hunk).value;
    var all := changes[path := change];
    var next := ExecuteHunk(now, cwd, hunk).value;
    ChangeMoves(before, cwd, hunk);
    assert forall q :: MovesTo(all, path, q) ==>
                         IsMove(hunk) && q in Touched(cwd, hunk) && MovesAway(cwd, hunk, path);
    assert Touched(cwd, hunk)[0] == path;
    hide ExecuteHunk, PreviewHunk, OverwrittenAt, Touched, TouchedBy, RemovedBy, MovedAwayBy, Removes, MovesAway,
      FollowsAll, Source;
    forall q
      ensures TouchedBy(cwd, seen + [hunk], q) || AsBefore(before, all, next, q)
    {
      SeenSnoc(cwd, seen, hunk, q);
      if !TouchedBy(cwd, seen + [hunk], q) {
        assert AsBefore(before, changes, now, q);
        assert q != path;
        assert forall p :: MovesTo(all, p, q) ==> p == path || MovesTo(changes, p, q);
      }
    }
    forall p, q | MovesTo(all, p, q)
      ensures MovedAwayBy(cwd, seen + [hunk], p)
    {
      SeenSnoc(cwd, seen, hunk, p);
      assert p == path || MovesTo(changes, p, q);
    }
    forall q | q in before && q !in next
      ensures RemovedBy(cwd, seen + [hunk], q)
    {
      SeenSnoc(cwd, seen, hunk, q);
    }
  }

  // ---------- Preview and execution agree ----------

  /** A file that is moved onto itself is written and then removed. */
  lemma MovedOntoItself(files: Files, cwd: Path, hunk: Hunk)
    requires PreviewHunk(files, cwd, hunk).Success? && !MovesElsewhere(cwd, hunk)
    ensures ExecuteHunk(files, cwd, hunk) == Success(files - {Source(cwd, hunk)})
    ensures !Overwritten(files, map[Source(cwd, hunk) := PreviewHunk(files, cwd, hunk).value],
                         files - {Source(cwd, hunk)})
  {
    hide Resolve, UpdatedText;
    var path := Source(cwd, hunk);
    var changes := map[path := PreviewHunk(files, cwd, hunk).value];
    assert ExecuteHunk(files, cwd, hunk).value == files - {path};
    assert !OverwrittenAt(files, changes, files - {path}, path);
  }

  /** One hunk: when its preview succeeds, so does its execution, touching no other path, and it makes the
      previewed change exactly when it does not move the file onto itself. */
  lemma HunkAgrees(files: Files, cwd: Path, hunk: Hunk)
    requires PreviewHunk(files, cwd, hunk).Success?
    ensures ExecuteHunk(files, cwd, hunk).Success?
    ensures Overwritten(files, map[Source(cwd, hunk) := PreviewHunk(files, cwd, hunk).value],
                        ExecuteHunk(files, cwd, hunk).value) <==>
            MovesElsewhere(cwd, hunk)
    ensures forall q :: q !in Touched(cwd, hunk) ==>
              Lookup(ExecuteHunk(files, cwd, hunk).value, q) == Lookup(files, q)
    ensures forall q :: q in files && q !in ExecuteHunk(files, cwd, hunk).value ==> Removes(cwd, hunk, q)
  {
    if MovesElsewhere(cwd, hunk) {
      NothingSeen(files, cwd);
      StepOverwrites(files, map[], files, cwd, [], hunk);
      var none: map<Path, Change> := map[];
      hide Overwritten, ExecuteHunk, PreviewHunk, Touched;
      assert none[Source(cwd, hunk) := PreviewHunk(files, cwd, hunk).value]
          == map[Source(cwd, hunk) := PreviewHunk(files, cwd, hunk).value];
    } else {
      MovedOntoItself(files, cwd, hunk);
      SourceIsTouched(cwd, hunk);
      hide ExecuteHunk, PreviewHunk, Overwritten;
    }
  }

  /** The induction: `now` is what the hunks in `seen` have made of `before`. */
  lemma {:induction false} RestAgrees(before: Files, changes: map<Path, Change>, now: Files, cwd: Path,
                                      seen: seq<Hunk>, hunks: seq<Hunk>, affected: AffectedPaths)
    requires Tracks(before, changes, now, cwd, seen) && GetAlong(cwd, seen + hunks)
    requires Preview(before, cwd, hunks).Success?
    ensures ExecuteFrom(now, cwd, hunks, affected).1.Success?
    ensures Overwritten(before, changes + Preview(before, cwd, hunks).value, ExecuteFrom(now, cwd, hunks, affected).0)
    decreases |hunks|
  {
    hide PreviewHunk, ExecuteHunk, Overwritten, Resolve, Follows, TouchedBy, RemovedBy, MovedAwayBy, AsBefore,
      MovesElsewhere;
    if hunks == [] {
      assert changes + map[] == changes;
    } else {
      var hunk, others := hunks[0], hunks[1..];
      assert seen + [hunk] + others == seen + hunks;
      assert FollowsAll(cwd, seen, hunk) && MovesElsewhere(cwd, hunk) by {
        assert (seen + hunks)[|seen|] == hunk;
        assert forall i :: 0 <= i < |seen| ==> (seen + hunks)[i] == seen[i];
      }
      TracksStep(before, changes, now, cwd, seen, hunk);
      var path, change := Source(cwd, hunk), PreviewHunk(before, cwd, hunk).value;
      var rest := Preview(before, cwd, others).value;
      hide Tracks, GetAlong, FollowsAll;
      RestAgrees(before, changes[path := change], ExecuteHunk(now, cwd, hunk).value, cwd, seen + [hunk], others,
                 Affect(affected, hunk));
      assert changes[path := change] + rest == changes + (map[path := change] + rest);
    }
  }

  /** No hunk deletes a file that is not text. */
  predicate DeletesText(files: Files, cwd: Path, hunks: seq<Hunk>) {
    forall i :: 0 <= i < |hunks| && hunks[i].DeleteFile? ==>
      Lookup(files, Resolve(cwd, hunks[i].path)) != Some(BinaryFile)
  }

  lemma HunkFailsAlike(files: Files, cwd: Path, hunk: Hunk)
    requires hunk.DeleteFile? ==> Lookup(files, Resolve(cwd, hunk.path)) != Some(BinaryFile)
    ensures PreviewHunk(files, cwd, hunk).Success? <==> ExecuteHunk(files, cwd, hunk).Success?
  {
    hide Resolve, UpdatedText;
  }

  /** Reading depends on the source alone. */
  lemma SameReads(a: Files, b: Files, cwd: Path, hunk: Hunk)
    requires hunk.AddFile? || Lookup(a, Source(cwd, hunk)) == Lookup(b, Source(cwd, hunk))
    ensures PreviewHunk(a, cwd, hunk).Success? <==> PreviewHunk(b, cwd, hunk).Success?
  {
    hide Resolve, UpdatedText;
  }

  lemma ExecutionTouches(files: Files, cwd: Path, hunk: Hunk, q: Path)
    requires ExecuteHunk(files, cwd, hunk).Success? && q !in Touched(cwd, hunk)
    ensures Lookup(ExecuteHunk(files, cwd, hunk).value, q) == Lookup(files, q)
  {
    hide Resolve, UpdatedText;
    assert Touched(cwd, hunk)[0] == Source(cwd, hunk);
    if IsMove(hunk) {
      assert Touched(cwd, hunk)[1] == Resolve(cwd, hunk.movePath.value);
    }
  }

  /** Where files are read untouched, execution succeeds on no patch whose preview fails. */
  lemma {:induction false} RestFailsAlike(before: Files, now: Files, cwd: Path, hunks: seq<Hunk>,
                                          affected: AffectedPaths)
    requires ReadsUntouched(cwd, hunks) && DeletesText(before, cwd, hunks)
    requires forall i :: 0 <= i < |hunks| && !hunks[i].AddFile? ==>
               Lookup(now, Source(cwd, hunks[i])) == Lookup(before, Source(cwd, hunks[i]))
    requires ExecuteFrom(now, cwd, hunks, affected).1.Success?
    ensures Preview(before, cwd, hunks).Success?
    decreases |hunks|
  {
    hide Touched, PreviewHunk, ExecuteHunk, Resolve;
    if hunks == [] {
    } else {
      var hunk, others := hunks[0], hunks[1..];
      var next := ExecuteHunk(now, cwd, hunk).value;
      HunkFailsAlike(now, cwd, hunk);
      SameReads(now, before, cwd, hunk);
      forall i | 0 <= i < |others|
        ensures others[i] == hunks[i + 1]
        ensures !others[i].AddFile? ==> Lookup(next, Source(cwd, others[i])) == Lookup(before, Source(cwd, others[i]))
      {
        assert others[i] == hunks[i + 1];
        if !others[i].AddFile? {
          assert Source(cwd, hunks[i + 1]) !in Touched(cwd, hunks[0]);
          ExecutionTouches(now, cwd, hunk, Source(cwd, others[i]));
        }
      }
      assert ReadsUntouched(cwd, others) && DeletesText(before, cwd, others);
      hide ReadsUntouched, DeletesText, Source;
      RestFailsAlike(before, next, cwd, others, Affect(affected, hunk));
    }
  }

  /** Hunks that get along: if the preview succeeds then execution fails only for want of a hunk, and
      leaves exactly the previewed files. Where moreover every file is read untouched and no binary file is
      deleted, execution succeeds on no patch whose preview fails. */
  lemma PreviewAgreesWithExecution(files: Files, cwd: Path, hunks: seq<Hunk>)
    ensures GetAlong(cwd, hunks) && Preview(files, cwd, hunks).Success? ==>
              && (Execute(files, cwd, hunks).1.Success? <==> hunks != [])
              && Overwritten(files, Preview(files, cwd, hunks).value, Execute(files, cwd, hunks).0)
    ensures ReadsUntouched(cwd, hunks) && DeletesText(files, cwd, hunks) && Execute(files, cwd, hunks).1.Success? ==>
              Preview(files, cwd, hunks).Success?
  {
    var none := AffectedPaths([], [], []);
    NothingSeen(files, cwd);
    hide Tracks, Overwritten, Follows, ReadsUntouched, DeletesText, PreviewHunk, ExecuteHunk;
    assert [] + hunks == hunks;
    if GetAlong(cwd, hunks) && Preview(files, cwd, hunks).Success? {
      RestAgrees(files, map[], files, cwd, [], hunks, none);
      assert map[] + Preview(files, cwd, hunks).value == Preview(files, cwd, hunks).value;
    }
    if ReadsUntouched(cwd, hunks) && DeletesText(files, cwd, hunks) && Execute(files, cwd, hunks).1.Success? {
      RestFailsAlike(files, files, cwd, hunks, none);
    }
  }

  lemma NothingToExecute(files: Files, cwd: Path)
    ensures Execute(files, cwd, []).1.Failure?
  {
  }

  /** In particular, hunks whose paths are pairwise distinct. */
  lemma DistinctPathsAgree(files: Files, cwd: Path, hunks: seq<Hunk>)
    requires DistinctPaths(cwd, hunks)
    ensures Preview(files, cwd, hunks).Success? ==>
              && (Execute(files, cwd, hunks).1.Success? <==> hunks != [])
              && Overwritten(files, Preview(files, cwd, hunks).value, Execute(files, cwd, hunks).0)
    ensures DeletesText(files, cwd, hunks) ==>
              (Execute(files, cwd, hunks).1.Success? <==> Preview(files, cwd, hunks).Success? && hunks != [])
  {
    hide *;
    DistinctPathsGetAlong(cwd, hunks);
    PreviewAgreesWithExecution(files, cwd, hunks);
    NothingToExecute(files, cwd);
  }

  /** Overwriting determines every file, so the previewed changes describe one final state. */
  lemma OverwrittenIsUnique(before: Files, changes: map<Path, Change>, one: Files, other: Files)
    requires Overwritten(before, changes, one) && Overwritten(before, changes, other)
    ensures one == other
  {
    forall q: Path
      ensures Lookup(one, q) == Lookup(other, q)
    {
      assert OverwrittenAt(before, changes, one, q) && OverwrittenAt(before, changes, other, q);
      if q !in changes && exists p :: MovesTo(changes, p, q) {
        var p :| MovesTo(changes, p, q);
        assert Lookup(one, q) == Some(TextFile(changes[p].newContent));
      }
    }
    assert forall q :: q in one <==> Lookup(one, q).Some?;
    assert forall q :: q in other <==> Lookup(other, q).Some?;
    assert one.Keys == other.Keys;
    forall q | q in one
      ensures one[q] == other[q]
    {
      assert Lookup(one, q) == Some(one[q]) && Lookup(other, q) == Some(other[q]);
    }
  }

  // ---------- Exactly when two hunks agree ----------

  /** The preview succeeds, execution succeeds and leaves the previewed files. */
  ghost predicate Agrees(files: Files, cwd: Path, hunks: seq<Hunk>) {
    && Preview(files, cwd, hunks).Success?
    && Execute(files, cwd, hunks).1.Success?
    && Overwritten(files, Preview(files, cwd, hunks).value, Execute(files, cwd, hunks).0)
  }

  lemma TwoPreviewed(files: Files, cwd: Path, first: Hunk, second: Hunk)
    requires PreviewHunk(files, cwd, first).Success? && PreviewHunk(files, cwd, second).Success?
    ensures Preview(files, cwd, [first, second]) ==
            Success(map[Source(cwd, first) := PreviewHunk(files, cwd, first).value]
                    [Source(cwd, second) := PreviewHunk(files, cwd, second).value])
  {
    hide PreviewHunk, Resolve;
    assert [first, second][1..] == [second] && [second][1..] == [];
    var one, two := PreviewHunk(files, cwd, first).value, PreviewHunk(files, cwd, second).value;
    assert map[Source(cwd, second) := two] + map[] == map[Source(cwd, second) := two];
    assert Preview(files, cwd, [second]) == Success(map[Source(cwd, second) := two]);
    assert map[Source(cwd, first) := one] + map[Source(cwd, second) := two] ==
           map[Source(cwd, first) := one][Source(cwd, second) := two];
  }

  lemma TwoExecuted(files: Files, cwd: Path, first: Hunk, second: Hunk)
    requires ExecuteHunk(files, cwd, first).Success?
    ensures var executed := ExecuteHunk(ExecuteHunk(files, cwd, first).value, cwd, second);
            && Execute(files, cwd, [first, second]).1.Success? == executed.Success?
            && (executed.Success? ==> Execute(files, cwd, [first, second]).0 == executed.value)
  {
    hide ExecuteHunk, Resolve;
    var none := AffectedPaths([], [], []);
    var between := ExecuteHunk(files, cwd, first).value;
    assert [first, second][1..] == [second] && [second][1..] == [];
    assert ExecuteFrom(files, cwd, [first, second], none) == ExecuteFrom(between, cwd, [second], Affect(none, first));
    var executed := ExecuteHunk(between, cwd, second);
    if executed.Success? {
      var affected := Affect(Affect(none, first), second);
      assert ExecuteFrom(executed.value, cwd, [], affected) == (executed.value, Success(affected));
      assert ExecuteFrom(between, cwd, [second], Affect(none, first)) == ExecuteFrom(executed.value, cwd, [], affected);
    }
  }

  lemma TwoHunks(files: Files, cwd: Path, first: Hunk, second: Hunk)
    requires PreviewHunk(files, cwd, first).Success? && PreviewHunk(files, cwd, second).Success?
    requires ExecuteHunk(files, cwd, first).Success?
    ensures Preview(files, cwd, [first, second]).Success?
    ensures var changes := map[Source(cwd, first) := PreviewHunk(files, cwd, first).value]
                           [Source(cwd, second) := PreviewHunk(files, cwd, second).value];
            var executed := ExecuteHunk(ExecuteHunk(files, cwd, first).value, cwd, second);
            && (Execute(files, cwd, [first, second]).1.Success? <==> executed.Success?)
            && (Agrees(files, cwd, [first, second]) <==>
                  executed.Success? && Overwritten(files, changes, executed.value))
  {
    hide ExecuteHunk, Resolve, PreviewHunk, Preview, Execute, Overwritten, Source;
    TwoPreviewed(files, cwd, first, second);
    TwoExecuted(files, cwd, first, second);
  }

  /** What the later hunk needs of the files between: it reads what it was previewed with; a deleted file
      is still there; a destination that the first hunk touched holds the contents that are moved to it; and
      where a file is added in place of one that was moved away, the move had changed nothing. */
  ghost predicate PairCondition(files: Files, between: Files, cwd: Path, first: Hunk, second: Hunk) {
    var source := Source(cwd, second);
    match second
    case AddFile(_, _) =>
      MovesAway(cwd, first, source) ==>
        Lookup(between, Destination(cwd, first)) == Lookup(files, Destination(cwd, first))
    case DeleteFile(_) => !Removes(cwd, first, source)
    case UpdateFile(_, movePath, chunks) =>
      && NewContents(between, source, chunks) == NewContents(files, source, chunks)
      && (movePath.Some? && Destination(cwd, second) in Touched(cwd, first) ==>
            NewContents(files, source, chunks).Success?
            && Lookup(between, Destination(cwd, second)) == Some(TextFile(NewContents(files, source, chunks).value)))
  }

  /** Whether the changes of both hunks, the second on top, describe what both hunks leave. */
  ghost predicate PairOverwrites(files: Files, cwd: Path, first: Hunk, second: Hunk)
    requires PreviewHunk(files, cwd, first).Success? && PreviewHunk(files, cwd, second).Success?
    requires ExecuteHunk(files, cwd, first).Success?
  {
    var executed := ExecuteHunk(ExecuteHunk(files, cwd, first).value, cwd, second);
    executed.Success? &&
    Overwritten(files, map[Source(cwd, first) := PreviewHunk(files, cwd, first).value]
                       [Source(cwd, second) := PreviewHunk(files, cwd, second).value], executed.value)
  }

  /** Everything that holds of the files between. */
  ghost predicate Between(files: Files, between: Files, cwd: Path, first: Hunk, one: Change) {
    && MovesElsewhere(cwd, first)
    && PreviewHunk(files, cwd, first) == Success(one)
    && ExecuteHunk(files, cwd, first) == Success(between)
    && Overwritten(files, map[Source(cwd, first) := one], between)
    && (forall q :: q !in Touched(cwd, first) ==> Lookup(between, q) == Lookup(files, q))
    && (forall q :: q in files && q !in between ==> Removes(cwd, first, q))
  }

  lemma RemovedIsGone(files: Files, between: Files, cwd: Path, first: Hunk, one: Change, q: Path)
    requires Between(files, between, cwd, first, one) && Removes(cwd, first, q)
    ensures q !in between
  {
    hide Resolve, UpdatedText, Overwritten;
  }

  lemma FirstChange(files: Files, between: Files, cwd: Path, first: Hunk, one: Change)
    requires Between(files, between, cwd, first, one)
    ensures forall p, q :: MovesTo(map[Source(cwd, first) := one], p, q) <==>
                           p == Source(cwd, first) && IsMove(first) && q == Destination(cwd, first)
    ensures IsMove(first) ==> one.Update? && Lookup(between, Destination(cwd, first)) == Some(TextFile(one.newContent))
    ensures Lookup(between, Source(cwd, first)) == AfterChange(Source(cwd, first), one)
    ensures IsMove(first) ==> Destination(cwd, first) in Touched(cwd, first)
  {
    hide Resolve, UpdatedText, Overwritten;
    if IsMove(first) {
      assert Touched(cwd, first)[1] == Destination(cwd, first);
    }
  }

  lemma PairDelete(files: Files, between: Files, cwd: Path, first: Hunk, one: Change, second: Hunk)
    requires Between(files, between, cwd, first, one) && PreviewHunk(files, cwd, second).Success?
    requires second.DeleteFile?
    ensures PairOverwrites(files, cwd, first, second) <==> PairCondition(files, between, cwd, first, second)
  {
    hide Resolve, UpdatedText;
    var path := Source(cwd, second);
    if Removes(cwd, first, path) {
      RemovedIsGone(files, between, cwd, first, one, path);
    } else {
      FirstChange(files, between, cwd, first, one);
      assert path in files && path in between;
      var after := between - {path};
      var changes := map[Source(cwd, first) := one];
      var two := PreviewHunk(files, cwd, second).value;
      var all := changes[path := two];
      assert ExecuteHunk(between, cwd, second) == Success(after);
      forall q: Path
        ensures OverwrittenAt(files, all, after, q)
      {
        if q != path {
          SameAt(files, changes, between, path, two, after, q);
        }
      }
    }
  }

  lemma PairAdd(files: Files, between: Files, cwd: Path, first: Hunk, one: Change, second: Hunk)
    requires Between(files, between, cwd, first, one) && second.AddFile?
    ensures PairOverwrites(files, cwd, first, second) <==> PairCondition(files, between, cwd, first, second)
  {
    hide Resolve, UpdatedText;
    var path := Source(cwd, second);
    var changes := map[Source(cwd, first) := one];
    var two := PreviewHunk(files, cwd, second).value;
    var all := changes[path := two];
    var after := between[path := TextFile(second.contents)];
    FirstChange(files, between, cwd, first, one);
    assert ExecuteHunk(between, cwd, second) == Success(after);
    forall q: Path | !(MovesAway(cwd, first, path) && q == Destination(cwd, first))
      ensures OverwrittenAt(files, all, after, q)
    {
      if q != path {
        SameAt(files, changes, between, path, two, after, q);
      }
    }
    if MovesAway(cwd, first, path) {
      var to := Destination(cwd, first);
      assert forall p, q :: !MovesTo(all, p, q);
      assert OverwrittenAt(files, all, after, to) <==> Lookup(between, to) == Lookup(files, to);
    }
  }

  lemma PairUpdate(files: Files, between: Files, cwd: Path, first: Hunk, one: Change, second: Hunk)
    requires Between(files, between, cwd, first, one) && PreviewHunk(files, cwd, second).Success?
    requires second.UpdateFile? && second.movePath.None?
    ensures PairOverwrites(files, cwd, first, second) <==> PairCondition(files, between, cwd, first, second)
  {
    hide Resolve, UpdatedText;
    var path := Source(cwd, second);
    var changes := map[Source(cwd, first) := one];
    var two := PreviewHunk(files, cwd, second).value;
    var all := changes[path := two];
    var contents := NewContents(between, path, second.chunks);
    if contents.Success? {
      assert path in between;
      if MovesAway(cwd, first, path) {
        RemovedIsGone(files, between, cwd, first, one, path);
        assert false;
      }
      FirstChange(files, between, cwd, first, one);
      var after := between[path := TextFile(contents.value)];
      assert ExecuteHunk(between, cwd, second) == Success(after);
      forall q: Path | q != path
        ensures OverwrittenAt(files, all, after, q)
      {
        SameAt(files, changes, between, path, two, after, q);
      }
      assert OverwrittenAt(files, all, after, path) <==> contents.value == two.newContent;
    }
  }

  lemma PairMove(files: Files, between: Files, cwd: Path, first: Hunk, one: Change, second: Hunk)
    requires Between(files, between, cwd, first, one) && PreviewHunk(files, cwd, second).Success?
    requires IsMove(second) && MovesElsewhere(cwd, second)
    ensures PairOverwrites(files, cwd, first, second) <==> PairCondition(files, between, cwd, first, second)
  {
    hide Resolve, UpdatedText;
    var path, to := Source(cwd, second), Destination(cwd, second);
    var changes := map[Source(cwd, first) := one];
    var two := PreviewHunk(files, cwd, second).value;
    var all := changes[path := two];
    var contents := NewContents(between, path, second.chunks);
    if contents.Success? {
      assert path in between;
      if MovesAway(cwd, first, path) {
        RemovedIsGone(files, between, cwd, first, one, path);
        assert false;
      }
      FirstChange(files, between, cwd, first, one);
      var after := between[to := TextFile(contents.value)] - {path};
      assert ExecuteHunk(between, cwd, second) == Success(after);
      forall q: Path | q != to
        ensures OverwrittenAt(files, all, after, q)
      {
        if q != path {
          SameAt(files, changes, between, path, two, after, q);
        }
      }
      MoveDestination(files, between, cwd, first, one, second);
    }
  }

  /** What a move previews, and what it reads where the first hunk did not touch its source. */
  lemma SecondMove(files: Files, between: Files, cwd: Path, first: Hunk, one: Change, second: Hunk)
    requires Between(files, between, cwd, first, one) && PreviewHunk(files, cwd, second).Success? && IsMove(second)
    ensures PreviewHunk(files, cwd, second).value.Update?
    ensures PreviewHunk(files, cwd, second).value.movePath == Some(Destination(cwd, second))
    ensures NewContents(files, Source(cwd, second), second.chunks) ==
            Success(PreviewHunk(files, cwd, second).value.newContent)
    ensures Source(cwd, second) !in Touched(cwd, first) ==>
            NewContents(between, Source(cwd, second), second.chunks) ==
            NewContents(files, Source(cwd, second), second.chunks)
  {
    hide Resolve, UpdatedText, Overwritten, ExecuteHunk;
  }

  lemma DestinationHolds(files: Files, source: Path, one: Change, path: Path, two: Change, after: Files, to: Path,
                         contents: string)
    requires path != to && two.Update? && two.movePath == Some(to) && Lookup(after, to) == Some(TextFile(contents))
    ensures OverwrittenAt(files, map[source := one][path := two], after, to) <==>
            if to == source then AfterChange(to, one) == Some(TextFile(contents))
            else
              && contents == two.newContent
              && (source != path && MovesTo(map[source := one], source, to) ==> contents == one.newContent)
  {
    var all := map[source := one][path := two];
    assert MovesTo(all, path, to);
    if to != source {
      assert source != path ==> (MovesTo(all, source, to) <==> MovesTo(map[source := one], source, to));
      forall p | MovesTo(all, p, to)
        ensures p == path || p == source
      {
      }
    }
  }

  /** What has to hold at the destination of the second hunk. */
  lemma MoveDestination(files: Files, between: Files, cwd: Path, first: Hunk, one: Change, second: Hunk)
    requires Between(files, between, cwd, first, one) && PreviewHunk(files, cwd, second).Success?
    requires IsMove(second) && MovesElsewhere(cwd, second) && !MovesAway(cwd, first, Source(cwd, second))
    requires NewContents(between, Source(cwd, second), second.chunks).Success?
    ensures var contents := NewContents(between, Source(cwd, second), second.chunks).value;
            var after := between[Destination(cwd, second) := TextFile(contents)] - {Source(cwd, second)};
            var changes := map[Source(cwd, first) := one]
                           [Source(cwd, second) := PreviewHunk(files, cwd, second).value];
            OverwrittenAt(files, changes, after, Destination(cwd, second)) <==>
            PairCondition(files, between, cwd, first, second)
  {
    var path, to, source := Source(cwd, second), Destination(cwd, second), Source(cwd, first);
    var contents := NewContents(between, path, second.chunks).value;
    var after := between[to := TextFile(contents)] - {path};
    var two := PreviewHunk(files, cwd, second).value;
    FirstChange(files, between, cwd, first, one);
    SecondMove(files, between, cwd, first, one, second);
    hide Resolve, UpdatedText, Overwritten, ExecuteHunk, PreviewHunk, NewContents;
    DestinationHolds(files, source, one, path, two, after, to, contents);
    hide OverwrittenAt;
    if to == source {
      if IsMove(first) {
        assert MovesTo(map[source := one], source, Destination(cwd, first));
        assert AfterChange(to, one).None?;
      } else {
        assert path !in Touched(cwd, first);
      }
      assert to in Touched(cwd, first);
    } else if IsMove(first) && to == Destination(cwd, first) {
      assert to in Touched(cwd, first);
      assert source != path;
      assert MovesTo(map[source := one], source, to);
    } else {
      assert to !in Touched(cwd, first);
    }
  }

  lemma AgreesIffOverwrites(files: Files, cwd: Path, first: Hunk, second: Hunk)
    requires PreviewHunk(files, cwd, first).Success? && PreviewHunk(files, cwd, second).Success?
    requires ExecuteHunk(files, cwd, first).Success?
    ensures Agrees(files, cwd, [first, second]) <==> PairOverwrites(files, cwd, first, second)
  {
    hide ExecuteHunk, PreviewHunk, Overwritten, Agrees, Source;
    TwoHunks(files, cwd, first, second);
  }

  /** Two hunks whose previews succeed, neither of them a move of a file onto itself: preview and execution
      agree exactly when the second hunk finds, after the first one, what it needs. */
  lemma PairAgreesIff(files: Files, cwd: Path, first: Hunk, second: Hunk)
    requires PreviewHunk(files, cwd, first).Success? && PreviewHunk(files, cwd, second).Success?
    requires MovesElsewhere(cwd, first) && MovesElsewhere(cwd, second)
    ensures ExecuteHunk(files, cwd, first).Success?
    ensures Agrees(files, cwd, [first, second]) <==>
            PairCondition(files, ExecuteHunk(files, cwd, first).value, cwd, first, second)
  {
    hide ExecuteHunk, PreviewHunk, Overwritten, Agrees, Touched, Removes, PairCondition;
    HunkAgrees(files, cwd, first);
    var one, between := PreviewHunk(files, cwd, first).value, ExecuteHunk(files, cwd, first).value;
    assert Between(files, between, cwd, first, one);
    AgreesIffOverwrites(files, cwd, first, second);
    hide PairOverwrites, Between;
    match second
    case AddFile(_, _) => PairAdd(files, between, cwd, first, one, second);
    case DeleteFile(_) => PairDelete(files, between, cwd, first, one, second);
    case UpdateFile(_, None, _) => PairUpdate(files, between, cwd, first, one, second);
    case UpdateFile(_, Some(_), _) => PairMove(files, between, cwd, first, one, second);
  }

  lemma AddHunk(files: Files, cwd: Path, name: string, added: string)
    ensures var hunk := AddFile(name, added);
            && Source(cwd, hunk) == Resolve(cwd, name)
            && PreviewHunk(files, cwd, hunk) == Success(Add(added))
            && ExecuteHunk(files, cwd, hunk) == Success(files[Resolve(cwd, name) := TextFile(added)])
  {
    hide Resolve;
  }

  lemma UpdateHunk(files: Files, cwd: Path, name: string, movePath: Option<string>, text: string, chunks: seq<Chunk>)
    requires Lookup(files, Resolve(cwd, name)) == Some(TextFile(text)) && UpdatedText(text, chunks).Success?
    ensures var hunk := UpdateFile(name, movePath, chunks);
            var updated := UpdatedText(text, chunks).value;
            && Source(cwd, hunk) == Resolve(cwd, name)
            && PreviewHunk(files, cwd, hunk).Success?
            && NewContents(files, Resolve(cwd, name), chunks) == Success(updated)
            && ExecuteHunk(files, cwd, hunk) ==
               Success(if movePath.Some?
                       then files[Resolve(cwd, movePath.value) := TextFile(updated)] - {Resolve(cwd, name)}
                       else files[Resolve(cwd, name) := TextFile(updated)])
  {
    hide Resolve, UpdatedText;
  }

  lemma ContentsAgreeIff(files: Files, between: Files, path: Path, text: string, now: string, chunks: seq<Chunk>)
    requires Lookup(files, path) == Some(TextFile(text)) && Lookup(between, path) == Some(TextFile(now))
    requires UpdatedText(text, chunks).Success?
    ensures NewContents(between, path, chunks) == NewContents(files, path, chunks) <==>
            UpdatedText(now, chunks) == UpdatedText(text, chunks)
  {
    hide UpdatedText;
  }

  /** A file that is added and then updated: preview and execution agree exactly when the update makes the
      same text of the old contents and of the new ones. */
  lemma UpdateAfterAddIff(files: Files, cwd: Path, name: string, added: string, text: string, chunks: seq<Chunk>)
    requires Lookup(files, Resolve(cwd, name)) == Some(TextFile(text)) && UpdatedText(text, chunks).Success?
    ensures Agrees(files, cwd, [AddFile(name, added), UpdateFile(name, None, chunks)]) <==>
            UpdatedText(added, chunks) == UpdatedText(text, chunks)
  {
    hide Resolve, UpdatedText, ExecuteHunk, PreviewHunk, Source, Agrees, NewContents;
    AddHunk(files, cwd, name, added);
    UpdateHunk(files, cwd, name, None, text, chunks);
    ContentsAgreeIff(files, files[Resolve(cwd, name) := TextFile(added)], Resolve(cwd, name), text, added, chunks);
    PairAgreesIff(files, cwd, AddFile(name, added), UpdateFile(name, None, chunks));
  }

  /** A file that is updated twice: they agree exactly when the second update makes the same text of the old
      contents and of the updated ones. */
  lemma UpdateTwiceIff(files: Files, cwd: Path, name: string, text: string, one: seq<Chunk>, two: seq<Chunk>)
    requires Lookup(files, Resolve(cwd, name)) == Some(TextFile(text))
    requires UpdatedText(text, one).Success? && UpdatedText(text, two).Success?
    ensures Agrees(files, cwd, [UpdateFile(name, None, one), UpdateFile(name, None, two)]) <==>
            UpdatedText(UpdatedText(text, one).value, two) == UpdatedText(text, two)
  {
    hide Resolve, UpdatedText, ExecuteHunk, PreviewHunk, Source, Agrees, NewContents;
    var updated := UpdatedText(text, one).value;
    UpdateHunk(files, cwd, name, None, text, one);
    UpdateHunk(files, cwd, name, None, text, two);
    ContentsAgreeIff(files, files[Resolve(cwd, name) := TextFile(updated)], Resolve(cwd, name), text, updated, two);
    PairAgreesIff(files, cwd, UpdateFile(name, None, one), UpdateFile(name, None, two));
  }

  /** A file that is deleted twice is previewed as deleted, and the second deletion fails. */
  lemma DeletedTwiceFails(files: Files, cwd: Path, name: string)
    requires Resolve(cwd, name) in files && files[Resolve(cwd, name)].TextFile?
    ensures Preview(files, cwd, [DeleteFile(name), DeleteFile(name)]).Success?
    ensures Execute(files, cwd, [DeleteFile(name), DeleteFile(name)]).1.Failure?
  {
    hide Resolve;
    TwoHunks(files, cwd, DeleteFile(name), DeleteFile(name));
  }

  /** A file that is moved onto one that an earlier hunk adds: they agree exactly when the moved contents
      are the added ones. */
  lemma MoveOntoAddedIff(files: Files, cwd: Path, name: string, dest: string, added: string, text: string,
                         chunks: seq<Chunk>)
    requires Resolve(cwd, name) != Resolve(cwd, dest)
    requires Lookup(files, Resolve(cwd, name)) == Some(TextFile(text)) && UpdatedText(text, chunks).Success?
    ensures Agrees(files, cwd, [AddFile(dest, added), UpdateFile(name, Some(dest), chunks)]) <==>
            UpdatedText(text, chunks).value == added
  {
    hide Resolve, UpdatedText, ExecuteHunk, PreviewHunk, Agrees, NewContents;
    var between := files[Resolve(cwd, dest) := TextFile(added)];
    AddHunk(files, cwd, dest, added);
    UpdateHunk(files, cwd, name, Some(dest), text, chunks);
    UpdateHunk(between, cwd, name, Some(dest), text, chunks);
    SourceIsTouched(cwd, AddFile(dest, added));
    PairAgreesIff(files, cwd, AddFile(dest, added), UpdateFile(name, Some(dest), chunks));
  }

  /** A file that is added where another one was moved away: its change takes the place of the move, and
      they agree exactly when the destination held the moved contents before. */
  lemma AddAfterMoveIff(files: Files, cwd: Path, name: string, dest: string, added: string, text: string,
                        chunks: seq<Chunk>)
    requires Resolve(cwd, name) != Resolve(cwd, dest)
    requires Lookup(files, Resolve(cwd, name)) == Some(TextFile(text)) && UpdatedText(text, chunks).Success?
    ensures Agrees(files, cwd, [UpdateFile(name, Some(dest), chunks), AddFile(name, added)]) <==>
            Lookup(files, Resolve(cwd, dest)) == Some(TextFile(UpdatedText(text, chunks).value))
  {
    hide Resolve, UpdatedText, ExecuteHunk, PreviewHunk, Agrees, NewContents;
    UpdateHunk(files, cwd, name, Some(dest), text, chunks);
    AddHunk(files, cwd, name, added);
    PairAgreesIff(files, cwd, UpdateFile(name, Some(dest), chunks), AddFile(name, added));
  }

  /** A file that is moved onto itself: preview and execution succeed, the file is lost, and they disagree. */
  lemma MoveOntoItselfDisagrees(files: Files, cwd: Path, name: string, dest: string, text: string, chunks: seq<Chunk>)
    requires Resolve(cwd, name) == Resolve(cwd, dest)
    requires Lookup(files, Resolve(cwd, name)) == Some(TextFile(text)) && UpdatedText(text, chunks).Success?
    ensures var hunks := [UpdateFile(name, Some(dest), chunks)];
            && Preview(files, cwd, hunks).Success? && Execute(files, cwd, hunks).1.Success?
            && Resolve(cwd, name) !in Execute(files, cwd, hunks).0
            && !Agrees(files, cwd, hunks)
  {
    var hunk := UpdateFile(name, Some(dest), chunks);
    hide Resolve, UpdatedText, NewContents;
    UpdateHunk(files, cwd, name, Some(dest), text, chunks);
    MovedOntoItself(files, cwd, hunk);
    hide PreviewHunk, ExecuteHunk, Overwritten, Source;
    assert [hunk][1..] == [];
    var change := PreviewHunk(files, cwd, hunk).value;
    assert map[Source(cwd, hunk) := change] + map[] == map[Source(cwd, hunk) := change];
    var after := ExecuteHunk(files, cwd, hunk).value;
    var affected := Affect(AffectedPaths([], [], []), hunk);
    assert ExecuteFrom(after, cwd, [], affected) == (after, Success(affected));
  }

  /** Deleting a file that an earlier hunk adds works, and its preview fails where there was no such file:
      this is what `ReadsUntouched` is for. */
  lemma DeleteAfterAddFailsToPreview(files: Files, cwd: Path, name: string, added: string)
    requires Resolve(cwd, name) !in files
    ensures var hunks := [AddFile(name, added), DeleteFile(name)];
            && GetAlong(cwd, hunks) && !ReadsUntouched(cwd, hunks)
            && Execute(files, cwd, hunks).1.Success? && Preview(files, cwd, hunks).Failure?
  {
    var first, second := AddFile(name, added), DeleteFile(name);
    hide Resolve;
    AddHunk(files, cwd, name, added);
    SourceIsTouched(cwd, first);
    assert Source(cwd, second) == Source(cwd, first);
    assert GetAlong(cwd, [first, second]) && !ReadsUntouched(cwd, [first, second]) by {
      assert Source(cwd, [first, second][1]) in Touched(cwd, [first, second][0]);
    }
    TwoExecuted(files, cwd, first, second);
    assert PreviewHunk(files, cwd, second).Failure?;
    assert [first, second][1..] == [second];
    hide Execute, PreviewHunk, ReadsUntouched, GetAlong;
    assert Preview(files, cwd, [second]).Failure?;
  }

  lemma AlongAgree(files: Files, cwd: Path, hunks: seq<Hunk>)
    requires GetAlong(cwd, hunks) && Preview(files, cwd, hunks).Success? && hunks != []
    ensures Agrees(files, cwd, hunks)
  {
    hide GetAlong, Overwritten, Preview, Execute;
    PreviewAgreesWithExecution(files, cwd, hunks);
  }

  /** Adding a file twice is fine: the later hunk wins in the preview as it does in the files. */
  lemma AddedTwiceAgrees(files: Files, cwd: Path, name: string, one: string, other: string)
    ensures Agrees(files, cwd, [AddFile(name, one), AddFile(name, other)])
  {
    var first, second := AddFile(name, one), AddFile(name, other);
    TwoPreviewed(files, cwd, first, second);
    assert GetAlong(cwd, [first, second]);
    AlongAgree(files, cwd, [first, second]);
  }

  lemma LineFound(chunks: seq<Chunk>)
    requires chunks == [Chunk(None, ["a"], ["b"], false)]
    ensures UpdatedText("", chunks).Failure? && UpdatedText("a\n", chunks).Success?
  {
    assert FileLines("") == [];
    assert PlaceChunk([], chunks[0], 0).Failure?;
    assert "a\n" == "a" + "\n";
    SplitSnocNewline("a");
    SplitWithoutSeparator("a", '\n');
    assert FileLines("a\n") == ["a"];
    PlainExactSeek(["a"], ["a"], 0, false);
    assert PlaceChunk(["a"], chunks[0], 0).Success?;
    hide PlaceChunk, Seek;
    assert chunks[1..] == [];
    var next := PlaceChunk(["a"], chunks[0], 0).value.1;
    assert PlaceChunks(["a"], chunks[1..], next) == Success([]);
    assert PlaceChunks(["a"], chunks, 0).Success?;
  }

  /** An input for the first clause: the added file is empty, and the update looks for a line that the old
      file has. */
  lemma UpdateAfterAddDisagrees(files: Files, cwd: Path, name: string)
    requires Lookup(files, Resolve(cwd, name)) == Some(TextFile("a\n"))
    ensures var hunks := [AddFile(name, ""), UpdateFile(name, None, [Chunk(None, ["a"], ["b"], false)])];
            Preview(files, cwd, hunks).Success? && !Agrees(files, cwd, hunks)
  {
    var chunks := [Chunk(None, ["a"], ["b"], false)];
    LineFound(chunks);
    AddHunk(files, cwd, name, "");
    UpdateHunk(files, cwd, name, None, "a\n", chunks);
    hide UpdatedText, Resolve, Agrees, Preview, PreviewHunk;
    UpdateAfterAddIff(files, cwd, name, "", "a\n", chunks);
    TwoPreviewed(files, cwd, AddFile(name, ""), UpdateFile(name, None, chunks));
  }
}
