/** What a patch does to which path: how the path text of a hunk becomes a path, and what one hunk of
    each kind changes when it is executed and when it is previewed. */
module PatchEffects {
  import opened Wrappers
  import opened Text
  import opened PatchSyntax
  import opened PatchFiles
  import opened FileContents

  // ---------- Path texts ----------

  /** A path as a patch writes it: names joined by slashes, with or without a leading one. */
  datatype WrittenPath = WrittenPath(absolute: bool, names: seq<string>) {
    function Text(): string {
      (if absolute then "/" else "") + Join(names, "/")
    }

    /** "." and the empty name stand for no component. */
    predicate Clean() {
      forall p :: p in names ==> p != "" && p != "." && '/' !in p
    }

    /** Where it leads: an absolute path replaces the working directory, any other one extends it. */
    function From(cwd: Path): Path {
      if absolute then names else cwd + names
    }
  }

  lemma {:induction false} NamesAreComponents(components: seq<string>)
    requires forall p :: p in components ==> p != "" && p != "."
    ensures NormalComponents(components) == components
  {
    if components == [] {
    } else {
      assert components[0] in components;
      assert forall p :: p in components[1..] ==> p in components;
      NamesAreComponents(components[1..]);
    }
  }

  lemma SlashFirst(text: string)
    ensures Split("/" + text, '/') == [""] + Split(text, '/')
  {
    assert ("/" + text)[1..] == text;
  }

  /** The first character of a relative path is the first one of its first name. */
  lemma JoinedHead(components: seq<string>)
    requires components != [] && components[0] != ""
    ensures Join(components, "/") != "" && Join(components, "/")[0] == components[0][0]
  {
  }

  /** A written path leads to its names, under the working directory or, after a leading slash,
      under the root. */
  lemma ResolvedPath(cwd: Path, written: WrittenPath)
    requires written.Clean()
    ensures Resolve(cwd, written.Text()) == written.From(cwd)
  {
    var names := written.names;
    var text := Join(names, "/");
    assert Split(text, '/') == if names == [] then [""] else names by {
      if names != [] {
        SplitJoin(names, '/');
      }
    }
    NamesAreComponents(names);
    assert NormalComponents(Split(text, '/')) == names;
    if written.absolute {
      SlashFirst(text);
      assert ([""] + Split(text, '/'))[1..] == Split(text, '/');
    } else {
      assert written.Text() == text;
      if names != [] {
        assert names[0] in names;
        JoinedHead(names);
        assert '/' != names[0][0];
      }
    }
  }

  lemma {:induction false} SkippedPiece(before: seq<string>, skipped: string, after: seq<string>)
    requires skipped == "" || skipped == "."
    ensures NormalComponents(before + [skipped] + after) == NormalComponents(before + after)
  {
    if before == [] {
      assert (before + [skipped] + after)[1..] == after && before + after == after;
    } else {
      assert (before + [skipped] + after)[1..] == before[1..] + [skipped] + after;
      assert (before + after)[1..] == before[1..] + after;
      SkippedPiece(before[1..], skipped, after);
    }
  }

  /** Joined with slashes, these pieces start with one. */
  predicate StartsAtRoot(pieces: seq<string>) {
    |pieces| > 1 && pieces[0] == ""
  }

  lemma HeadOfJoin(pieces: seq<string>)
    requires pieces != [] && '/' !in pieces[0]
    ensures var text := Join(pieces, "/");
            text != "" && text[0] == '/' <==> StartsAtRoot(pieces)
  {
  }

  /** Doubled and final slashes and "." make no difference, as long as they do not make a relative path
      absolute or the other way round. */
  lemma SlashesAndDots(cwd: Path, before: seq<string>, skipped: string, after: seq<string>)
    requires skipped == "" || skipped == "."
    requires forall p :: p in before + after ==> '/' !in p
    requires before + after != []
    requires StartsAtRoot(before + [skipped] + after) == StartsAtRoot(before + after)
    ensures Resolve(cwd, Join(before + [skipped] + after, "/")) == Resolve(cwd, Join(before + after, "/"))
  {
    var longer, shorter := before + [skipped] + after, before + after;
    assert forall p :: p in longer ==> p in before + after || p == skipped;
    SplitJoin(longer, '/');
    SplitJoin(shorter, '/');
    SkippedPiece(before, skipped, after);
    assert longer[0] in longer && shorter[0] in shorter;
    HeadOfJoin(longer);
    HeadOfJoin(shorter);
    hide Join, Split, NormalComponents, StartsAtRoot;
  }

  // ---------- One hunk ----------

  /** The path a hunk is reported under: that of the destination when it moves its file. */
  function ReportedPath(hunk: Hunk): string {
    match hunk
    case UpdateFile(_, Some(dest), _) => dest
    case _ => hunk.path
  }

  /** `path` holds `now`, and every other path what it held before. */
  ghost predicate OnlyChanges(before: Files, after: Files, path: Path, now: Option<File>) {
    forall q :: Lookup(after, q) == if q == path then now else Lookup(before, q)
  }

  lemma SingleHunk(files: Files, cwd: Path, hunk: Hunk)
    ensures var r := ExecuteHunk(files, cwd, hunk);
            Execute(files, cwd, [hunk]) ==
            if r.Success? then (r.value, Success(Affect(AffectedPaths([], [], []), hunk)))
            else (files, Failure(r.error))
    ensures var r := PreviewHunk(files, cwd, hunk);
            Preview(files, cwd, [hunk]) ==
            if r.Success? then Success(map[Resolve(cwd, hunk.path) := r.value]) else Failure(r.error)
  {
    hide ExecuteHunk, PreviewHunk, Resolve, Affect;
    assert [hunk][1..] == [];
    assert Preview(files, cwd, [hunk][1..]) == Success(map[]);
    if PreviewHunk(files, cwd, hunk).Success? {
      var changes := map[Resolve(cwd, hunk.path) := PreviewHunk(files, cwd, hunk).value];
      assert changes + map[] == changes;
    }
    if ExecuteHunk(files, cwd, hunk).Success? {
      var after, affected := ExecuteHunk(files, cwd, hunk).value, Affect(AffectedPaths([], [], []), hunk);
      assert ExecuteFrom(after, cwd, [hunk][1..], affected) == (after, Success(affected));
    }
  }

  /** Adding a file writes its contents, whatever was there before. */
  lemma AddEffect(files: Files, cwd: Path, written: WrittenPath, contents: string)
    requires written.Clean()
    ensures var path, hunk := written.From(cwd), AddFile(written.Text(), contents);
            var (after, outcome) := Execute(files, cwd, [hunk]);
            && outcome == Success(AffectedPaths([written.Text()], [], []))
            && OnlyChanges(files, after, path, Some(TextFile(contents)))
            && Preview(files, cwd, [hunk]) == Success(map[path := Add(contents)])
  {
    hide Resolve, Execute, Preview;
    ResolvedPath(cwd, written);
    var hunk := AddFile(written.Text(), contents);
    SingleHunk(files, cwd, hunk);
    assert [] + [ReportedPath(hunk)] == [ReportedPath(hunk)];
  }

  /** A deletion needs a file, and its preview a text file, whose contents it shows. */
  lemma DeleteEffect(files: Files, cwd: Path, written: WrittenPath)
    requires written.Clean()
    ensures var path, hunk := written.From(cwd), DeleteFile(written.Text());
            var (after, outcome) := Execute(files, cwd, [hunk]);
            if path in files then
              && outcome == Success(AffectedPaths([], [], [written.Text()]))
              && OnlyChanges(files, after, path, None)
            else outcome == Failure(RemoveFailed(path)) && after == files
    ensures var path, hunk := written.From(cwd), DeleteFile(written.Text());
            Preview(files, cwd, [hunk]) ==
            match Lookup(files, path) {
              case Some(TextFile(text)) => Success(map[path := Delete(text)])
              case _ => Failure(ReadFailed(path))
            }
  {
    hide Resolve, Execute, Preview;
    ResolvedPath(cwd, written);
    var hunk := DeleteFile(written.Text());
    SingleHunk(files, cwd, hunk);
    assert [] + [ReportedPath(hunk)] == [ReportedPath(hunk)];
  }

  /** An update that cannot read its file or place its chunks changes nothing, and neither executes nor
      previews. */
  lemma FailedUpdateEffect(files: Files, cwd: Path, written: WrittenPath, movePath: Option<string>, chunks: seq<Chunk>)
    requires written.Clean()
    requires !exists text ::
               Lookup(files, written.From(cwd)) == Some(TextFile(text)) && UpdatedText(text, chunks).Success?
    ensures var path, hunk := written.From(cwd), UpdateFile(written.Text(), movePath, chunks);
            var file := Lookup(files, path);
            var problem := if file.Some? && file.value.TextFile?
                           then UpdateFailed(path, UpdatedText(file.value.text, chunks).error) else ReadFailed(path);
            Execute(files, cwd, [hunk]) == (files, Failure(problem)) && Preview(files, cwd, [hunk]) == Failure(problem)
  {
    hide Resolve, Execute, Preview, UpdatedText;
    ResolvedPath(cwd, written);
    var hunk := UpdateFile(written.Text(), movePath, chunks);
    SingleHunk(files, cwd, hunk);
    assert [] + [ReportedPath(hunk)] == [ReportedPath(hunk)];
  }

  /** Any other update rewrites its file. */
  lemma UpdateEffect(files: Files, cwd: Path, written: WrittenPath, chunks: seq<Chunk>, text: string, updated: string)
    requires written.Clean() && Lookup(files, written.From(cwd)) == Some(TextFile(text))
    requires UpdatedText(text, chunks) == Success(updated)
    ensures var path, hunk := written.From(cwd), UpdateFile(written.Text(), None, chunks);
            var (after, outcome) := Execute(files, cwd, [hunk]);
            && outcome == Success(AffectedPaths([], [written.Text()], []))
            && OnlyChanges(files, after, path, Some(TextFile(updated)))
            && Preview(files, cwd, [hunk]) == Success(map[path := Update(None, updated)])
  {
    hide Resolve, Execute, Preview, UpdatedText;
    ResolvedPath(cwd, written);
    var hunk := UpdateFile(written.Text(), None, chunks);
    SingleHunk(files, cwd, hunk);
    assert [] + [ReportedPath(hunk)] == [ReportedPath(hunk)];
  }

  /** A move writes the updated text at its destination, which is reported as modified, and leaves
      nothing at the old path. */
  lemma MoveEffect(files: Files, cwd: Path, written: WrittenPath, dest: WrittenPath, chunks: seq<Chunk>,
                   text: string, updated: string)
    requires written.Clean() && dest.Clean() && Lookup(files, written.From(cwd)) == Some(TextFile(text))
    requires UpdatedText(text, chunks) == Success(updated)
    ensures var path, to := written.From(cwd), dest.From(cwd);
            var hunk := UpdateFile(written.Text(), Some(dest.Text()), chunks);
            var (after, outcome) := Execute(files, cwd, [hunk]);
            && outcome == Success(AffectedPaths([], [dest.Text()], []))
            && Lookup(after, path) == None
            && (to != path ==> Lookup(after, to) == Some(TextFile(updated)))
            && (forall q :: q != path && q != to ==> Lookup(after, q) == Lookup(files, q))
            && Preview(files, cwd, [hunk]) == Success(map[path := Update(Some(to), updated)])
  {
    hide Resolve, Execute, Preview, UpdatedText;
    ResolvedPath(cwd, written);
    ResolvedPath(cwd, dest);
    var hunk := UpdateFile(written.Text(), Some(dest.Text()), chunks);
    SingleHunk(files, cwd, hunk);
    assert [] + [ReportedPath(hunk)] == [ReportedPath(hunk)];
  }

  // ---------- Many hunks ----------

  datatype Kind = Added | Modified | Deleted

  predicate IsOfKind(hunk: Hunk, kind: Kind) {
    match kind
    case Added => hunk.AddFile?
    case Modified => hunk.UpdateFile?
    case Deleted => hunk.DeleteFile?
  }

  function ReportedPaths(hunks: seq<Hunk>, kind: Kind): (paths: seq<string>) {
    if hunks == [] then []
    else (if IsOfKind(hunks[0], kind) then [ReportedPath(hunks[0])] else []) + ReportedPaths(hunks[1..], kind)
  }

  lemma AffectedOne(affected: AffectedPaths, hunk: Hunk)
    ensures var next := Affect(affected, hunk);
            && next.added == affected.added + (if IsOfKind(hunk, Added) then [ReportedPath(hunk)] else [])
            && next.modified == affected.modified + (if IsOfKind(hunk, Modified) then [ReportedPath(hunk)] else [])
            && next.deleted == affected.deleted + (if IsOfKind(hunk, Deleted) then [ReportedPath(hunk)] else [])
  {
  }

  lemma {:induction false} AffectedFrom(files: Files, cwd: Path, hunks: seq<Hunk>, affected: AffectedPaths)
    requires ExecuteFrom(files, cwd, hunks, affected).1.Success?
    ensures var all := ExecuteFrom(files, cwd, hunks, affected).1.value;
            && all.added == affected.added + ReportedPaths(hunks, Added)
            && all.modified == affected.modified + ReportedPaths(hunks, Modified)
            && all.deleted == affected.deleted + ReportedPaths(hunks, Deleted)
    decreases |hunks|
  {
    hide ExecuteHunk, IsOfKind, ReportedPath, Affect;
    if hunks == [] {
    } else {
      AffectedOne(affected, hunks[0]);
      var next := ExecuteHunk(files, cwd, hunks[0]).value;
      AffectedFrom(next, cwd, hunks[1..], Affect(affected, hunks[0]));
    }
  }

  /** A patch that succeeds reports every hunk once, in the list of its kind and in order. */
  lemma AffectedLists(files: Files, cwd: Path, hunks: seq<Hunk>)
    requires Execute(files, cwd, hunks).1.Success?
    ensures Execute(files, cwd, hunks).1.value ==
            AffectedPaths(ReportedPaths(hunks, Added), ReportedPaths(hunks, Modified), ReportedPaths(hunks, Deleted))
  {
    AffectedFrom(files, cwd, hunks, AffectedPaths([], [], []));
  }

  /** No hunk after the one at `i` is for the same path. */
  predicate LastForPath(cwd: Path, hunks: seq<Hunk>, i: nat) {
    && i < |hunks|
    && (forall j :: i < j < |hunks| ==> Resolve(cwd, hunks[j].path) != Resolve(cwd, hunks[i].path))
  }

  lemma {:induction false} PathInPreview(files: Files, cwd: Path, hunks: seq<Hunk>, i: nat)
    requires Preview(files, cwd, hunks).Success? && i < |hunks|
    ensures Resolve(cwd, hunks[i].path) in Preview(files, cwd, hunks).value
    decreases |hunks|
  {
    hide PreviewHunk, Resolve;
    if i > 0 {
      PathInPreview(files, cwd, hunks[1..], i - 1);
    }
  }

  lemma LastInRest(cwd: Path, hunks: seq<Hunk>, i: nat)
    requires hunks != []
    ensures LastForPath(cwd, hunks, i + 1) <==> LastForPath(cwd, hunks[1..], i)
  {
    hide Resolve;
    assert forall j :: i + 1 < j < |hunks| ==> hunks[j] == hunks[1..][j - 1];
    assert forall j :: i < j < |hunks[1..]| ==> hunks[1..][j] == hunks[j + 1];
  }

  lemma {:induction false} LastIsPreviewed(files: Files, cwd: Path, hunks: seq<Hunk>, i: nat)
    requires Preview(files, cwd, hunks).Success? && LastForPath(cwd, hunks, i)
    ensures var path, changes := Resolve(cwd, hunks[i].path), Preview(files, cwd, hunks).value;
            path in changes && PreviewHunk(files, cwd, hunks[i]) == Success(changes[path])
    decreases |hunks|
  {
    hide PreviewHunk, Resolve;
    var rest := hunks[1..];
    if i > 0 {
      LastInRest(cwd, hunks, i - 1);
      LastIsPreviewed(files, cwd, rest, i - 1);
    } else {
      var path := Resolve(cwd, hunks[0].path);
      if path in Preview(files, cwd, rest).value {
        var _ := PreviewedIsLast(files, cwd, rest, path);
        assert false;
      }
    }
  }

  /** The hunk that a previewed change comes from. */
  lemma {:induction false} PreviewedIsLast(files: Files, cwd: Path, hunks: seq<Hunk>, path: Path) returns (i: nat)
    requires Preview(files, cwd, hunks).Success? && path in Preview(files, cwd, hunks).value
    ensures LastForPath(cwd, hunks, i) && Resolve(cwd, hunks[i].path) == path
    decreases |hunks|
  {
    hide PreviewHunk, Resolve;
    var rest := hunks[1..];
    if path in Preview(files, cwd, rest).value {
      var k := PreviewedIsLast(files, cwd, rest, path);
      LastInRest(cwd, hunks, k);
      i := k + 1;
    } else {
      forall j | 0 < j < |hunks|
        ensures Resolve(cwd, hunks[j].path) != path
      {
        PathInPreview(files, cwd, rest, j - 1);
      }
      i := 0;
    }
  }

  /** The preview has one change for each path that has a hunk: that of its last hunk. */
  lemma PreviewedIffLast(files: Files, cwd: Path, hunks: seq<Hunk>, path: Path, change: Change)
    requires Preview(files, cwd, hunks).Success?
    ensures var changes := Preview(files, cwd, hunks).value;
            path in changes && changes[path] == change <==>
            exists i: nat :: LastForPath(cwd, hunks, i) && Resolve(cwd, hunks[i].path) == path
                             && PreviewHunk(files, cwd, hunks[i]) == Success(change)
  {
    hide PreviewHunk, Resolve, Preview;
    var changes := Preview(files, cwd, hunks).value;
    if path in changes {
      var k := PreviewedIsLast(files, cwd, hunks, path);
      LastIsPreviewed(files, cwd, hunks, k);
    }
    forall i: nat | LastForPath(cwd, hunks, i)
      ensures Resolve(cwd, hunks[i].path) in changes
      ensures PreviewHunk(files, cwd, hunks[i]) == Success(changes[Resolve(cwd, hunks[i].path)])
    {
      LastIsPreviewed(files, cwd, hunks, i);
    }
  }

  /** The preview of a deletion that is not overwritten shows the text that is deleted. */
  lemma PreviewedDeletion(files: Files, cwd: Path, hunks: seq<Hunk>, i: nat)
    requires Preview(files, cwd, hunks).Success? && LastForPath(cwd, hunks, i) && hunks[i].DeleteFile?
    ensures var path, changes := Resolve(cwd, hunks[i].path), Preview(files, cwd, hunks).value;
            && path in changes && changes[path].Delete?
            && Lookup(files, path) == Some(TextFile(changes[path].content))
  {
    LastIsPreviewed(files, cwd, hunks, i);
    hide Resolve, Preview;
  }
}
