/** `apply_hunks_to_files`, which changes files one hunk after the other, and the preview of
    `maybe_parse_apply_patch_verified`, which reads the unchanged files only. */
module PatchFiles {
  import opened Wrappers
  import opened Text
  import opened PatchSyntax
  import opened UpdateFile
  import opened FileContents

  // ---------- Paths and files ----------

  /** An absolute path as its components. */
  type Path = seq<string>

  /** A file whose bytes are UTF-8 text, or one that cannot be read as text. */
  datatype File = TextFile(text: string) | BinaryFile

  type Files = map<Path, File>

  function NormalComponents(pieces: seq<string>): Path {
    if pieces == [] then []
    else if pieces[0] == "" || pieces[0] == "." then NormalComponents(pieces[1..])
    else [pieces[0]] + NormalComponents(pieces[1..])
  }

  /** `cwd.join(path)`: an absolute path replaces the working directory. */
  function Resolve(cwd: Path, path: string): Path {
    var components := NormalComponents(Split(path, '/'));
    if path != "" && path[0] == '/' then components else cwd + components
  }

  function Lookup(files: Files, path: Path): Option<File> {
    if path in files then Some(files[path]) else None
  }

  datatype PatchError =
    | NoHunks
    | ReadFailed(path: Path)
    | RemoveFailed(path: Path)
    | UpdateFailed(path: Path, error: UpdateError)

  function ReadText(files: Files, path: Path): Result<string, PatchError> {
    match Lookup(files, path)
    case Some(TextFile(text)) => Success(text)
    case _ => Failure(ReadFailed(path))
  }

  function NewContents(files: Files, path: Path, chunks: seq<Chunk>): Result<string, PatchError> {
    var text :- ReadText(files, path);
    match UpdatedText(text, chunks)
    case Success(updated) => Success(updated)
    case Failure(error) => Failure(UpdateFailed(path, error))
  }

  // ---------- Execution ----------

  datatype AffectedPaths = AffectedPaths(added: seq<string>, modified: seq<string>, deleted: seq<string>)

  function Affect(affected: AffectedPaths, hunk: Hunk): AffectedPaths {
    match hunk
    case AddFile(path, _) => affected.(added := affected.added + [path])
    case DeleteFile(path) => affected.(deleted := affected.deleted + [path])
    case UpdateFile(path, movePath, _) =>
      affected.(modified := affected.modified + [if movePath.Some? then movePath.value else path])
  }

  /** The files after one hunk. A moved file is written first and then removed at its old path. */
  function ExecuteHunk(files: Files, cwd: Path, hunk: Hunk): (r: Result<Files, PatchError>) {
    var path := Resolve(cwd, hunk.path);
    match hunk
    case AddFile(_, contents) => Success(files[path := TextFile(contents)])
    case DeleteFile(_) => if path in files then Success(files - {path}) else Failure(RemoveFailed(path))
    case UpdateFile(_, movePath, chunks) =>
      var contents :- NewContents(files, path, chunks);
      if movePath.Some? then Success(files[Resolve(cwd, movePath.value) := TextFile(contents)] - {path})
      else Success(files[path := TextFile(contents)])
  }

  /** The files that are left, also after a failure, and the outcome. */
  function ExecuteFrom(files: Files, cwd: Path, hunks: seq<Hunk>, affected: AffectedPaths)
    : (r: (Files, Result<AffectedPaths, PatchError>))
    decreases |hunks|
  {
    if hunks == [] then (files, Success(affected))
    else
      match ExecuteHunk(files, cwd, hunks[0])
      case Failure(error) => (files, Failure(error))
      case Success(next) => ExecuteFrom(next, cwd, hunks[1..], Affect(affected, hunks[0]))
  }

  function Execute(files: Files, cwd: Path, hunks: seq<Hunk>): (Files, Result<AffectedPaths, PatchError>) {
    if hunks == [] then (files, Failure(NoHunks))
    else ExecuteFrom(files, cwd, hunks, AffectedPaths([], [], []))
  }

  /** The part of the operating system the engine writes to. */
  class FileSystem {
    var files: Files

    constructor (initial: Files)
      ensures files == initial
    {
      files := initial;
    }

    method ReadToString(path: Path) returns (r: Result<string, PatchError>)
      ensures r == ReadText(files, path)
    {
      if path in files && files[path].TextFile? {
        return Success(files[path].text);
      }
      return Failure(ReadFailed(path));
    }

    method Write(path: Path, contents: string)
      modifies this
      ensures files == old(files)[path := TextFile(contents)]
    {
      files := files[path := TextFile(contents)];
    }

    method RemoveFile(path: Path) returns (removed: bool)
      modifies this
      ensures removed == (path in old(files))
      ensures files == old(files) - {path}
    {
      removed := path in files;
      files := files - {path};
    }
  }

  /** The loop over hunks, with the file operations in the order in which they are made. */
  method ApplyHunksToFiles(fs: FileSystem, cwd: Path, hunks: seq<Hunk>)
    returns (r: Result<AffectedPaths, PatchError>)
    modifies fs
    ensures (fs.files, r) == Execute(old(fs.files), cwd, hunks)
  {
    if hunks == [] {
      return Failure(NoHunks);
    }
    var affected := AffectedPaths([], [], []);
    var i := 0;
    while i < |hunks|
      invariant 0 <= i <= |hunks|
      invariant ExecuteFrom(fs.files, cwd, hunks[i..], affected) == Execute(old(fs.files), cwd, hunks)
    {
      var hunk := hunks[i];
      var path := Resolve(cwd, hunk.path);
      ghost var before := fs.files;
      assert hunks[i..][0] == hunk && hunks[i..][1..] == hunks[i + 1..];
      match hunk {
        case AddFile(name, contents) =>
          fs.Write(path, contents);
          affected := affected.(added := affected.added + [name]);
        case DeleteFile(name) =>
          var removed := fs.RemoveFile(path);
          if !removed {
            assert fs.files == before;
            return Failure(RemoveFailed(path));
          }
          affected := affected.(deleted := affected.deleted + [name]);
        case UpdateFile(name, movePath, chunks) =>
          var original :- fs.ReadToString(path);
          var derived := DeriveNewContents(original, chunks);
          if derived.Failure? {
            return Failure(UpdateFailed(path, derived.error));
          }
          if movePath.Some? {
            fs.Write(Resolve(cwd, movePath.value), derived.value);
            var _ := fs.RemoveFile(path);
            affected := affected.(modified := affected.modified + [movePath.value]);
          } else {
            fs.Write(path, derived.value);
            affected := affected.(modified := affected.modified + [name]);
          }
      }
      assert ExecuteHunk(before, cwd, hunk) == Success(fs.files);
      i := i + 1;
    }
    return Success(affected);
  }

  // ---------- Preview ----------

  datatype Change =
    | Add(content: string)
    | Delete(content: string)
    | Update(movePath: Option<Path>, newContent: string)

  function PreviewHunk(files: Files, cwd: Path, hunk: Hunk): (r: Result<Change, PatchError>) {
    var path := Resolve(cwd, hunk.path);
    match hunk
    case AddFile(_, contents) => Success(Add(contents))
    case DeleteFile(_) =>
      var content :- ReadText(files, path);
      Success(Delete(content))
    case UpdateFile(_, movePath, chunks) =>
      var contents :- NewContents(files, path, chunks);
      Success(Update(if movePath.Some? then Some(Resolve(cwd, movePath.value)) else None, contents))
  }

  /** Every hunk is read against the same, unchanged files; a later hunk for a path replaces an
      earlier one. */
  function Preview(files: Files, cwd: Path, hunks: seq<Hunk>): (r: Result<map<Path, Change>, PatchError>)
    decreases |hunks|
  {
    if hunks == [] then Success(map[])
    else
      var change :- PreviewHunk(files, cwd, hunks[0]);
      var rest :- Preview(files, cwd, hunks[1..]);
      Success(map[Resolve(cwd, hunks[0].path) := change] + rest)
  }

  /** Changes found so far, with those of the remaining hunks on top. */
  function PreviewOnto(changes: map<Path, Change>, rest: Result<map<Path, Change>, PatchError>)
    : Result<map<Path, Change>, PatchError>
  {
    match rest
    case Success(more) => Success(changes + more)
    case Failure(error) => Failure(error)
  }

  lemma PreviewStep(files: Files, cwd: Path, hunks: seq<Hunk>, i: nat, changes: map<Path, Change>)
    requires i < |hunks|
    ensures var all := PreviewOnto(changes, Preview(files, cwd, hunks[i..]));
            match PreviewHunk(files, cwd, hunks[i]) {
              case Success(change) =>
                all == PreviewOnto(changes[Resolve(cwd, hunks[i].path) := change], Preview(files, cwd, hunks[i + 1..]))
              case Failure(error) => all == Failure(error)
            }
  {
    hide PreviewHunk, Resolve;
    assert hunks[i..][0] == hunks[i] && hunks[i..][1..] == hunks[i + 1..];
    var path := Resolve(cwd, hunks[i].path);
    var rest := Preview(files, cwd, hunks[i + 1..]);
    if PreviewHunk(files, cwd, hunks[i]).Success? && rest.Success? {
      var change := PreviewHunk(files, cwd, hunks[i]).value;
      assert changes + (map[path := change] + rest.value) == changes[path := change] + rest.value;
    }
  }

  /** The loop that fills the map of changes. */
  method PreviewPatch(files: Files, cwd: Path, hunks: seq<Hunk>) returns (r: Result<map<Path, Change>, PatchError>)
    ensures r == Preview(files, cwd, hunks)
  {
    hide PreviewHunk, Resolve;
    var changes: map<Path, Change> := map[];
    ghost var target := Preview(files, cwd, hunks);
    assert target.Success? ==> map[] + target.value == target.value;
    var i := 0;
    while i < |hunks|
      invariant 0 <= i <= |hunks|
      invariant PreviewOnto(changes, Preview(files, cwd, hunks[i..])) == target
    {
      PreviewStep(files, cwd, hunks, i, changes);
      var path := Resolve(cwd, hunks[i].path);
      var change :- PreviewHunk(files, cwd, hunks[i]);
      changes := changes[path := change];
      i := i + 1;
    }
    assert changes + map[] == changes;
    return Success(changes);
  }
}
