/** Parsed patches: the hunks and chunks that the parser produces and the engine applies. */
module PatchSyntax {
  import opened Wrappers

  /** `oldLines` is a block of the file to be replaced by `newLines`; the context line, if any,
      comes before it, and an end-of-file chunk is looked for at the end of the file. */
  datatype Chunk = Chunk(
    changeContext: Option<string>,
    oldLines: seq<string>,
    newLines: seq<string>,
    isEndOfFile: bool)

  datatype Hunk =
    | AddFile(path: string, contents: string)
    | DeleteFile(path: string)
    | UpdateFile(path: string, movePath: Option<string>, chunks: seq<Chunk>)
}
