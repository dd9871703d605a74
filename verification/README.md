# Verified models of the patch engine, the app-server protocol, schema processing and scope allocation

This project models five parts of the repository in Dafny and proves what they promise over all inputs
and over all runs.

* **The patch engine** (`codex-rs/apply-patch`). A patch text is parsed into hunks (`PatchParser`,
  `PatchParserLoops`), the lines of each chunk are found in the file with four passes of decreasing
  strictness (`SeekSequence`), the chunks become edits (`UpdateFile`), the edits are applied from the back
  (`Replacements`), and the text is put together again (`FileContents`). `PatchApplication` says what an
  update makes of a file, chunk by chunk and line by line, and `NoOpPatches` when patches that put back what
  they remove change nothing. `PatchFiles` runs hunks against a file system and computes the preview that is
  shown before; `PatchEffects` says which path each kind of hunk changes and how, and `PreviewAgreement` when
  preview and execution agree. `PatchRoundTrip`, `PatchText` and `PatchReparse` hold a printer for the
  documented grammar and prove that parsing undoes it, and that what was parsed can be printed;
  `PatchErrorLines` says which line an error names, `PatchPadding` where whitespace makes no difference, and
  `PatchEndToEnd` follows patches that are written out in full from their text to the files they leave.
* **The app-server protocol** (`codex-rs/app-server`). Each lock-protected block is one step of a state
  machine, and any interleaving of steps is a run: the callback table (`Outgoing`), the handlers and turn
  transitions that use it (`TurnBoundaries`), the three subscription maps (`ThreadStateIndex`), the status
  notifications (`ThreadStatusWatch`) and the outbound router with its bounded queues (`Transport`, with its
  properties in `TransportDelivery`). A class with the program's own fields stands beside each machine, and
  its methods are proved to make exactly the machine's steps. Five modules say what a run leads to in terms of
  what happened in it, without the machine's own functions: `RequestHistory`, `TurnAnswers`,
  `SubscriberHistory`, `ThreadStatusHistory` and `TransportRouting`.
* **Schema processing** (`codex-rs/app-server-protocol`). Removing method variants and then the definitions
  that nothing reaches (`SchemaRefs`, with references as paths and chains in `SchemaPaths`), splitting a union
  at its top level and joining it again (`TopLevelSplit`, with types as documents in `TypeTexts`), and the
  canonical form of JSON values (`CanonicalJson` and `CanonicalOrder`, with `Sorting`, and the text of values in
  `JsonText` and `JsonReading`).
* **The scope allocator** (`tools/codex-multi/orchestrator.py`). Disjoint scopes for agents, and which paths
  a scope holds (`Scopes`, `ScopeAllocator`); what is made of scopes and names as they are written, and which
  scope each task is given (`ScopeForms`).

Loops of the source are methods with loops; each is proved equal to a recursive specification, and the
properties are lemmas about the specifications.

## What the proofs found

The properties below hold only under conditions that the code or its comments do not state. Each is shown
by a concrete input, and the condition is proved.

* A chunk marked as end of file is looked for at the very end only. The comment at the top of
  `seek_sequence.rs` (lines 1-6) promises a fallback to the start position; the code (lines 29-33) has none
  (`EndOfFileLooksOnlyAtTheEnd`, `EndOfFileDoesNotFallBack`). The model follows the code. Such a match may
  lie before what the chunk before it replaced (`EndOfFileChunkOverlaps`).
* A pure addition goes in front of a final blank line, where it can fall into the lines of another chunk
  (`AdditionBeforeBlankLineOverlaps`). Where neither happens, which a caller can check, edits are disjoint
  (`EditsAreDisjoint`). Otherwise they may overlap, and then a line that one chunk adds can be removed in
  place of the one that another chunk means (`OverlapDamagesInsertedLines`).
* A line that belongs nowhere is named by its error, except in a first chunk without a header: there the error
  names the line after it (`ErrorNamesItsLine`, `HeaderlessErrorIsLate`).
* A patch that puts back the lines it removes can still change a file: a final newline is added or dropped,
  and a line that was found only up to whitespace or punctuation is rewritten. When every chunk is found
  exactly it changes nothing exactly when the text is empty or ends in one newline after a non-empty line
  (`MatchedNoOpKeepsText`, `ReadWriteBack`); with disjoint edits, both conditions together are exact
  (`NoOpKeepsTextIff`).
* A file that is moved onto itself is written and then removed: the preview shows its new contents, execution
  succeeds, and the file is lost (`MoveOntoItselfDisagrees`). One hunk whose preview succeeds makes the
  previewed change exactly when it is not such a move (`HunkAgrees`).
* Preview and execution agree when no file is moved onto itself, no file is updated, and no file moved to,
  after an earlier hunk has touched that path, no file is deleted after an earlier hunk has removed it, and no
  file is added where an earlier hunk has moved one away (`PreviewAgreesWithExecution`); adding a file twice,
  for one, is fine (`AddedTwiceAgrees`). Two hunks that move no file onto itself agree exactly when the second
  one finds, after the first, what it needs (`PairAgreesIff`); for instance when an update makes the same text
  of the old contents and of those that an earlier hunk left (`UpdateAfterAddIff`, `UpdateTwiceIff`). A patch
  can also execute although its preview fails, unless every file is read before any hunk has touched it
  (`DeleteAfterAddFailsToPreview`).
* A handler recognises a turn transition by the reason in an error's data alone. A client that answers with an
  error carrying that reason silences the handler too, with no turn transition at all, and the agent gets no
  answer, then or later (`ClientErrorSilences`, `SilencedForever`). Where nothing else carries the reason, a
  handler is silent exactly when a turn transition caught its request pending, or when it is an older command
  approval that failed (`SilencedIffCaught`, `SilentIff`).
* `set_listener` does not ask whether its connection is live, so it brings a removed connection back
  (`AbsentUnlessBroughtBack`).
* A guard that is released after its thread was removed announces the thread as loaded again
  (`LateReleaseRevives`).
* A waiting flag can be up with no live guard, because a request is counted before its guard is made and
  dropping a guard only spawns the task that notes the release (`FlagOutlivesGuard`). While the thread is not
  reset this is so exactly when no guard is live and one is about to be handed out or waits for its release
  (`FlagUpIff`). Across a reset the flag can even be down while a guard is live (`LateReleaseHidesRequest`).
* Removing the last listener of a connection for a thread ends its subscription, also where the connection was
  subscribed on its own as well (`SubscribersByHistory`).
* An arrow inside angle brackets closes them for the scanner of generated types, which may then cut inside a
  type (`ArrowClosesAngle`); types whose brackets are all closed by their own kind are only cut between
  (`SplitOfTypes`).
* With the default root, the suffix loop of the allocator never ends exactly when there are several tasks
  and the first one asks for the whole repository (`HangsIffFirstTakesAll`); for any root that normalization
  leaves alone, exactly when the first of the requested scopes that overlaps with an earlier one comes after
  one that covers the root (`HangsIff`).
* Scopes that pass the overlap check can still hold a common path, exactly when one of them overlaps with
  the other's `codex-rs/` form (`SharedPathIff`, `DoubledScopesShareAPath`).

## Model

| member | source | states |
|---|---|---|
| SeekSequence.RunPass | codex-rs/apply-patch/src/seek_sequence.rs:34-53 | One search loop with its early exit returns the first index, from the start on, at which every line agrees under the pass |
| SeekSequence.SeekSequence | codex-rs/apply-patch/src/seek_sequence.rs:12-110 | The four loops in order of strictness compute `Seek`, with the empty pattern, the too long pattern and the end-of-file start |
| SeekSequence.FirstMatchIsEarliest | codex-rs/apply-patch/src/seek_sequence.rs:34-53 | A pass finds the earliest match in its range, or there is none at any later index |
| SeekSequence.PassesAreNested | codex-rs/apply-patch/src/seek_sequence.rs:34-107 | Lines that match under a pass match under every later pass |
| SeekSequence.FoundIsStrictestThenEarliest | codex-rs/apply-patch/src/seek_sequence.rs:12-110 | An index is returned if and only if some pass first matches there and no stricter pass matches anywhere in the range |
| SeekSequence.NotFoundMeansNoMatch | codex-rs/apply-patch/src/seek_sequence.rs:12-110 | Nothing is returned if and only if no pass matches anywhere in the range, equivalently if the most lenient one does not |
| SeekSequence.EndOfFileLooksOnlyAtTheEnd | codex-rs/apply-patch/src/seek_sequence.rs:29-33 | With the end-of-file flag the result is the last possible index if the pattern matches there leniently, and nothing otherwise, whatever the start |
| SeekSequence.EndOfFileDoesNotFallBack | codex-rs/apply-patch/src/seek_sequence.rs:1-33 | A pattern that stands at the start and is not found with the end-of-file flag |
| SeekSequence.SeekInBounds | codex-rs/apply-patch/src/seek_sequence.rs:12-110 | A match lies in the file, in the searched range, and agrees with the pattern up to whitespace and punctuation |
| SeekSequence.LinesAlikeIff | codex-rs/apply-patch/src/seek_sequence.rs:76-94 | To the most lenient pass two lines are the same if and only if, trimmed, they are equally long and in each place hold the same character or two of one class: dashes, single quotes, double quotes or spaces, each listed code point by code point |
| Text.TrimIff | codex-rs/apply-patch/src/seek_sequence.rs:54-79 | Trimming leaves the one text that neither begins nor ends with one of the 25 code points of the Unicode property White_Space, listed one by one, and has nothing else around it |
| Replacements.ApplyEdit | codex-rs/apply-patch/src/lib.rs:486-499 | The remove loop and the insert loop replace exactly the lines of one edit, fewer if the file ends before |
| Replacements.ApplyReplacements | codex-rs/apply-patch/src/lib.rs:478-502 | The reverse loop equals the back-to-front specification for sorted edits and the left-to-right splice for disjoint ones |
| Replacements.BackToFrontIsSplice | codex-rs/apply-patch/src/lib.rs:478-502 | For all disjoint edits in bounds, editing from the back is the splice of untouched and new segments |
| Replacements.SpliceLength | codex-rs/apply-patch/src/lib.rs:478-502 | The number of lines changes by what was added less what was removed |
| Replacements.UntouchedLinesSurvive | codex-rs/apply-patch/src/lib.rs:478-502 | Every line that no edit removes is in the result, shifted by exactly the edits that end before it |
| Replacements.SurvivorsKeepOrder | codex-rs/apply-patch/src/lib.rs:478-502 | Surviving lines keep their order |
| UpdateFile.SkipContext | codex-rs/apply-patch/src/lib.rs:397-412 | The cursor moves behind the first match of the context line, or the context is reported as missing |
| UpdateFile.LocateOldLines | codex-rs/apply-patch/src/lib.rs:426-454 | The old lines are found as given or, failing that, without their blank last line and with the new lines cut in the same way; `PatchApplication.InsertedLines` says which new lines these are |
| UpdateFile.PlaceOneChunk | codex-rs/apply-patch/src/lib.rs:393-468 | One round of the loop: the edit of a chunk and the next cursor, or the error |
| UpdateFile.ComputeReplacements | codex-rs/apply-patch/src/lib.rs:386-474 | The loop over chunks computes `Compute`: the edits in order of their start, or the first error; `PatchApplication.PlacedWhereFound` and `UpdateReplaces` say where and what they are |
| UpdateFile.ChunkFollowsContext | codex-rs/apply-patch/src/lib.rs:393-468 | An edit is in bounds and removes lines like the chunk's; its context line lies directly before the start of the search; without the end-of-file flag it comes after the context and after what earlier chunks removed |
| UpdateFile.ComputedInBounds | codex-rs/apply-patch/src/lib.rs:386-474 | All computed edits are sorted and in bounds, end-of-file chunks and additions included |
| UpdateFile.SortedDisjointIffCompatible | codex-rs/apply-patch/src/lib.rs:471-473 | The stable sort yields disjoint edits if and only if the edits are pairwise compatible in the order in which they were found |
| UpdateFile.EditsAreDisjoint | codex-rs/apply-patch/src/lib.rs:386-474 | If no chunk with old lines is an end-of-file chunk, and no addition goes before a final blank line, the edits are in bounds, sorted and disjoint, and applying them is the splice |
| PatchApplication.InsertedLines | codex-rs/apply-patch/src/lib.rs:426-461 | Where an edit removes all old lines it inserts all new lines; where it removes them without their blank last line, it inserts the new lines without their last line if and only if that is blank; a pure addition stands at the end or before a final blank line |
| PatchApplication.PlacedWhereFound | codex-rs/apply-patch/src/lib.rs:393-468 | A chunk is placed behind its context and at the earliest match of the strictest pass that matches, and the next search starts behind it; otherwise the context or the old lines, also without a blank last line, match nowhere under any pass, and the error names them |
| PatchApplication.PlacedAt | codex-rs/apply-patch/src/lib.rs:393-468 | A chunk whose context and old lines stand in the file, first from the cursor on or at the end for an end-of-file chunk, is placed exactly there with exactly its new lines |
| PatchApplication.UpdateReplaces | codex-rs/apply-patch/src/lib.rs:386-502 | A file whose lines the chunks name in order, with contexts and end-of-file chunks, becomes the file in which each chunk's new lines stand in place of its old lines and nothing else is changed |
| PatchApplication.OneChunkReplaces | codex-rs/apply-patch/src/lib.rs:386-502 | A chunk whose old lines stand at an index and at none before replaces exactly these lines by its new lines |
| PatchApplication.OneChunkAdds | codex-rs/apply-patch/src/lib.rs:414-424 | A chunk without old lines adds its lines at the end of the file, or in front of a final blank line |
| FileContents.DeriveNewContents | codex-rs/apply-patch/src/lib.rs:348-381 | Split, pop, edit, push and join compute `UpdatedText`, with the errors of the search |
| FileContents.ReadWriteBack | codex-rs/apply-patch/src/lib.rs:362-376 | What reading and writing back does to any text: one newline is added, one is dropped, or nothing changes |
| FileContents.UpdatedTextEndsInNewline | codex-rs/apply-patch/src/lib.rs:370-376 | An updated file is empty or ends in a newline, whatever the chunks |
| PatchApplication.UpdateReplacesText | codex-rs/apply-patch/src/lib.rs:348-381 | The same from text to text: what the chunks leave is the text of the updated lines, each ended by a newline, but for a blank last line |
| FileContents.EndOfFileChunkOverlaps | codex-rs/apply-patch/src/lib.rs:437-461 | An end-of-file chunk whose edit overlaps with the edit of the chunk before it |
| FileContents.AdditionBeforeBlankLineOverlaps | codex-rs/apply-patch/src/lib.rs:414-424 | An addition that lands inside the lines that another chunk removes |
| FileContents.OverlapDamagesInsertedLines | codex-rs/apply-patch/src/lib.rs:386-502 | A file and two chunks whose edits overlap, and where the line that the second chunk adds is lost |
| NoOpPatches.NoOpKeepsLines | codex-rs/apply-patch/src/lib.rs:386-502 | Chunks that put back their old lines keep the number of lines and each line up to `normalise`, for any mix of end-of-file flags and overlaps |
| NoOpPatches.MatchedExactlyIff | codex-rs/apply-patch/src/lib.rs:437-461 | For such chunks, each edit puts back exactly what it removes if and only if every chunk was found exactly |
| NoOpPatches.MatchedNoOpKeepsText | codex-rs/apply-patch/src/lib.rs:348-381 | If every chunk is found exactly, such a patch leaves the text unchanged if and only if it has a clean end, overlaps and end-of-file chunks included |
| NoOpPatches.ExactNoOpKeepsText | codex-rs/apply-patch/src/lib.rs:348-381 | The same for a file none of whose lines resembles an old line without being equal to it, which can be seen before the search |
| NoOpPatches.NoOpKeepsLinesIff | codex-rs/apply-patch/src/lib.rs:386-502 | With disjoint edits, such a patch leaves the lines unchanged if and only if every chunk was found exactly |
| NoOpPatches.NoOpKeepsTextIff | codex-rs/apply-patch/src/lib.rs:348-381 | With disjoint edits, such a patch leaves the text unchanged if and only if every chunk was found exactly and the text has a clean end |
| PatchParser.ReadDiff | codex-rs/apply-patch/src/parser.rs:390-432 | The diff lines of a chunk never take more lines than there are, and at least one where a first one is there |
| PatchParser.ReadFirstDiff | codex-rs/apply-patch/src/parser.rs:379-432 | A chunk body has at least one line, or the error names its first line |
| PatchParser.ParseChunk | codex-rs/apply-patch/src/parser.rs:343-434 | A chunk takes between one and all of the lines and is not empty; an error names its first line or the next |
| PatchParser.ParseChunks | codex-rs/apply-patch/src/parser.rs:294-318 | The chunks of an update take at least a line each and at most all lines; an error names one of its lines or the line after |
| PatchParser.ChunksEnd | codex-rs/apply-patch/src/parser.rs:296-309 | An update hunk ends only at the end of the body or at a line that starts with three asterisks |
| PatchParser.ChunksHaveLines | codex-rs/apply-patch/src/parser.rs:310-318 | No chunk of an update hunk is empty |
| PatchParser.ParseUpdate | codex-rs/apply-patch/src/parser.rs:279-333 | An update hunk takes between one and all of the lines; its errors name lines in its range |
| PatchParser.ParseHunk | codex-rs/apply-patch/src/parser.rs:248-341 | A hunk takes between one and all of the lines; its errors name lines in its range |
| PatchParser.ParseHunks | codex-rs/apply-patch/src/parser.rs:166-176 | Errors of the body name one of its lines or the line after it |
| PatchParser.HunksUseUpBody | codex-rs/apply-patch/src/parser.rs:166-176 | A successful parse splits the body into consecutive spans, one hunk each, whose lengths add up to the body |
| PatchParser.PatchLinesAreTwo | codex-rs/apply-patch/src/parser.rs:187-244 | Accepted boundaries mean at least two lines |
| PatchParser.ParseText | codex-rs/apply-patch/src/parser.rs:154-185 | Every reported hunk error names a line between 2 and the number of patch lines |
| PatchParserLoops.ReadDiffLoop | codex-rs/apply-patch/src/parser.rs:384-432 | The loop over diff lines computes `ReadDiff` |
| PatchParserLoops.ParseUpdateFileChunk | codex-rs/apply-patch/src/parser.rs:343-434 | The function with its early returns computes `ParseChunk` |
| PatchParserLoops.ParseChunkLoop | codex-rs/apply-patch/src/parser.rs:294-318 | The loop that skips blank lines and pushes chunks computes `ParseChunks` |
| PatchParserLoops.ReadAddedLoop | codex-rs/apply-patch/src/parser.rs:252-270 | The loop that pushes added lines computes `ReadAddedLines` |
| PatchParserLoops.ParseOneHunk | codex-rs/apply-patch/src/parser.rs:248-341 | The function computes `ParseHunk` |
| PatchParserLoops.ParseHunkLoop | codex-rs/apply-patch/src/parser.rs:166-176 | The loop over the body computes the hunks of `ParseHunks`, or its error |
| PatchParserLoops.ParsePatchText | codex-rs/apply-patch/src/parser.rs:154-185 | The whole parser in both modes computes `ParseText` |
| PatchRoundTrip.ParseRenderedChunk | codex-rs/apply-patch/src/parser.rs:4-24 | Parsing a printed chunk gives back what it means and takes exactly its lines, whatever follows |
| PatchRoundTrip.ParseRenderedHunk | codex-rs/apply-patch/src/parser.rs:4-24 | Parsing a printed hunk in front of another one or the end gives back what it means |
| PatchRoundTrip.ParseRenderedHunks | codex-rs/apply-patch/src/parser.rs:166-176 | Parsing printed hunks gives them all back |
| PatchText.ParseOfRender | codex-rs/apply-patch/src/parser.rs:154-185 | Parsing a printed document, with any whitespace around it and in both modes, gives back its hunks and its text |
| PatchText.ParseOfHeredoc | codex-rs/apply-patch/src/parser.rs:196-224 | The same inside each of the three heredoc forms in lenient mode, while strict mode rejects it |
| PatchText.ParseOfPrint | codex-rs/apply-patch/src/parser.rs:4-24 | Printing any well-formed hunks and parsing the text gives back the same hunks, also through a heredoc |
| PatchReparse.ParseOfReprint | codex-rs/apply-patch/src/parser.rs:154-434 | The hunks of any patch that parses and has no line ending in a bare carriage return can be printed, and parsing that gives back the same hunks |
| PatchErrorLines.ErrorNamesItsLine | codex-rs/apply-patch/src/parser.rs:248-434 | Every error in a hunk names a line of the patch and fits it: the header that opens no hunk, the header of an update without chunks, the line where a chunk header is missing, the line that belongs nowhere (or the one after it in a first chunk without header), or the place after a chunk header where lines are missing |
| PatchErrorLines.HeaderlessErrorIsLate | codex-rs/apply-patch/src/parser.rs:343-434 | A stray line in a first chunk without header is reported as the line after it |
| PatchPadding.BoundaryErrorIff | codex-rs/apply-patch/src/parser.rs:226-244 | Lines are accepted if and only if the first and the last, without the whitespace around them, are the two markers; a wrong first line is reported before a wrong last one |
| PatchPadding.SameHunk | codex-rs/apply-patch/src/parser.rs:248-341 | A hunk parses as it does with other whitespace around its header and at the end of the headers after it |
| PatchPadding.PaddedParsesAlike | codex-rs/apply-patch/src/parser.rs:154-244 | Whatever whitespace stands around the markers, around the first header and after the other headers, a patch that parses parses to the same hunks |
| PatchPadding.AcceptedIff | codex-rs/apply-patch/src/parser.rs:154-244 | Patch lines are accepted if and only if they are marked, or lenient mode finds marked lines inside one of the three heredocs, which it takes without that |
| PatchPadding.UpdateEndsAtStars | codex-rs/apply-patch/src/parser.rs:296-316 | The chunks of an update end at the end of the body or at a line that starts with three asterisks, and there are none if that comes first |
| PatchFiles.ApplyHunksToFiles | codex-rs/apply-patch/src/lib.rs:279-339 | The loop of writes and removals leaves the files of `Execute` and returns its paths or error, also after a failure midway; `PatchEffects` says what these are |
| PatchFiles.PreviewPatch | codex-rs/apply-patch/src/invocation.rs:163-206 | The loop that fills the map of changes computes `Preview`, whose entries `PatchEffects.PreviewedIffLast` and the effects of each kind of hunk describe |
| PatchEffects.ResolvedPath | codex-rs/apply-patch/src/parser.rs:77-85 | Names joined by slashes lead to these names under the working directory and, after a leading slash, to the names themselves |
| PatchEffects.SlashesAndDots | codex-rs/apply-patch/src/parser.rs:77-85 | Doubled slashes, final slashes and `.` make no difference, as long as the path stays absolute or relative |
| PatchEffects.AddEffect | codex-rs/apply-patch/src/lib.rs:290-301 | An added file is written at its path and nowhere else, reported as added, and previewed with its contents |
| PatchEffects.DeleteEffect | codex-rs/apply-patch/src/lib.rs:302-306 | A deleted file is removed and reported as deleted; without a file the execution fails at that path and changes nothing; the preview shows the text that is deleted, or fails where there is no text to read |
| PatchEffects.UpdateEffect | codex-rs/apply-patch/src/lib.rs:307-333 | An updated file holds the updated text, no other path changes, and preview and report name it |
| PatchEffects.MoveEffect | codex-rs/apply-patch/src/lib.rs:312-327 | A moved file stands updated at its destination, which is reported as modified, and is gone from its old path; the preview names the destination |
| PatchEffects.FailedUpdateEffect | codex-rs/apply-patch/src/lib.rs:348-371 | An update that cannot read its file or place its chunks changes nothing, and execution and preview give the same error |
| PatchEffects.AffectedLists | codex-rs/apply-patch/src/lib.rs:279-339 | A patch that succeeds reports each hunk once, in the list of its kind and in the order of the patch, a moved file under its destination |
| PatchEffects.PreviewedIffLast | codex-rs/apply-patch/src/invocation.rs:163-206 | A change is in the preview of a path if and only if the last hunk for that path previews to it |
| PatchEffects.PreviewedDeletion | codex-rs/apply-patch/src/invocation.rs:169-184 | A previewed deletion that no later hunk replaces shows what the file contains |
| PatchEndToEnd.AdditionAsWritten | codex-rs/apply-patch/src/parser.rs:31-36 | The text of an addition, written out, leaves a file with exactly the marked lines at the written path |
| PatchEndToEnd.DeletionAsWritten | codex-rs/apply-patch/src/parser.rs:31-36 | The text of a deletion removes exactly the file at the written path, and succeeds if and only if there is one |
| PatchEndToEnd.ReplacementAsWritten | codex-rs/apply-patch/src/lib.rs:183-213 | The text of a replacement, written out, leaves the file with the added lines in place of the removed ones, which stand there first, and changes nothing else |
| PatchEndToEnd.UpdateAsWritten | codex-rs/apply-patch/src/parser.rs:31-39 | An update with a move, a context, kept, removed, added and empty lines and an end-of-file mark, written out, parses to exactly that hunk |
| PreviewAgreement.HunkAgrees | codex-rs/apply-patch/src/invocation.rs:163-206 | One hunk whose preview succeeds executes, touching no other path, and makes exactly the previewed change if and only if it does not move a file onto itself |
| PreviewAgreement.MoveOntoItselfDisagrees | codex-rs/apply-patch/src/lib.rs:305-330 | A file that is moved onto itself: preview and execution succeed, and the file is lost |
| PreviewAgreement.PreviewAgreesWithExecution | codex-rs/apply-patch/src/invocation.rs:163-206 | For hunks that get along: if the preview succeeds, execution succeeds unless there are no hunks, and the files are the initial ones overwritten by the previewed changes; where every file is read untouched and no binary file is deleted, execution succeeds only if the preview does |
| PreviewAgreement.DistinctPathsAgree | codex-rs/apply-patch/src/lib.rs:279-339 | In particular for hunks whose source paths and destinations are pairwise distinct, where preview and execution succeed on the same patches if no binary file is deleted |
| PreviewAgreement.PairAgreesIff | codex-rs/apply-patch/src/invocation.rs:163-206 | Any two hunks whose previews succeed and that move no file onto itself: they agree if and only if, after the first one, the second reads what it was previewed with, the deleted file is there, and the destination or the moved file is as the changes say |
| PreviewAgreement.UpdateAfterAddIff | codex-rs/apply-patch/src/invocation.rs:163-206 | A file that is added and then updated: they agree if and only if the update makes the same text of the old and the new contents |
| PreviewAgreement.UpdateTwiceIff | codex-rs/apply-patch/src/invocation.rs:163-206 | A file that is updated twice: they agree if and only if the second update makes the same text of the old and the updated contents |
| PreviewAgreement.UpdateAfterAddDisagrees | codex-rs/apply-patch/src/invocation.rs:163-206 | A file and two such hunks for which they do not agree |
| PreviewAgreement.DeletedTwiceFails | codex-rs/apply-patch/src/lib.rs:279-339 | A file that is deleted twice: the preview succeeds and execution fails |
| PreviewAgreement.MoveOntoAddedIff | codex-rs/apply-patch/src/invocation.rs:163-206 | A file that is moved onto an added one: they agree if and only if the moved contents are the added ones |
| PreviewAgreement.AddAfterMoveIff | codex-rs/apply-patch/src/invocation.rs:163-206 | A file that is added where one was moved away: they agree if and only if the destination held the moved contents before |
| PreviewAgreement.DeleteAfterAddFailsToPreview | codex-rs/apply-patch/src/invocation.rs:163-206 | Hunks that get along and execute, and whose preview fails because it reads the files before |
| PreviewAgreement.AddedTwiceAgrees | codex-rs/apply-patch/src/invocation.rs:163-206 | A file that is added twice: they agree on every file system |
| PreviewAgreement.OverwrittenIsUnique | codex-rs/apply-patch/src/lib.rs:279-339 | The previewed changes describe one final file system |
| Outgoing.IdsDistinctIffNoWrap | codex-rs/app-server/src/outgoing_message.rs:151-153 | The first n ids of the wrapping 64-bit counter are distinct if and only if n is at most 2^64 |
| Outgoing.ResolvedAtMostOnce | codex-rs/app-server/src/outgoing_message.rs:151-326 | Over every run that issues at most 2^64 ids: each issued id is unregistered, pending or resolved, in exactly one way, and is resolved at most once |
| Outgoing.StaleReplyChangesNothing | codex-rs/app-server/src/outgoing_message.rs:237-278 | A reply, error or cancellation for an id that is not pending changes nothing |
| Outgoing.OutcomesAreFinal | codex-rs/app-server/src/outgoing_message.rs:237-326 | A resolved request keeps its outcome and never becomes pending again, over every later run |
| Outgoing.CancelThreadIsExact | codex-rs/app-server/src/outgoing_message.rs:295-326 | Cancelling for a thread removes exactly its requests and leaves every other entry as it is |
| Outgoing.OutgoingMessageSender.NextRequestId | codex-rs/app-server/src/outgoing_message.rs:151-153 | The counter hands out the next id and wraps |
| Outgoing.OutgoingMessageSender.InsertCallback | codex-rs/app-server/src/outgoing_message.rs:161-175 | The callback enters the table under its id |
| Outgoing.OutgoingMessageSender.SendRequest | codex-rs/app-server/src/outgoing_message.rs:155-215 | The request is registered; it is withdrawn again if and only if the broadcast or one of the sends fails, and sending stops at the first failure |
| Outgoing.OutgoingMessageSender.TakeRequestCallback | codex-rs/app-server/src/outgoing_message.rs:272-278 | The entry of the id, if there is one, leaves the table and is returned |
| Outgoing.OutgoingMessageSender.NotifyClientResponse | codex-rs/app-server/src/outgoing_message.rs:237-250 | A reply makes the step `Reply` |
| Outgoing.OutgoingMessageSender.NotifyClientError | codex-rs/app-server/src/outgoing_message.rs:252-266 | An error makes the step `ReplyError` |
| Outgoing.OutgoingMessageSender.CancelRequest | codex-rs/app-server/src/outgoing_message.rs:268-270 | A cancellation makes the step `Cancel` and says whether the id was pending |
| Outgoing.OutgoingMessageSender.PendingRequestsForThread | codex-rs/app-server/src/outgoing_message.rs:280-293 | Exactly the pending requests of the thread, each once, with their ids and in the order of ids |
| Outgoing.OutgoingMessageSender.CancelRequestsForThread | codex-rs/app-server/src/outgoing_message.rs:295-326 | The loop of removals makes the step `CancelThread` |
| RequestHistory.PendingByHistory | codex-rs/app-server/src/outgoing_message.rs:151-326 | Over every run that issues at most 2^64 ids: an entry is pending if and only if it was registered, with this thread and this request, under an issued id and nothing has resolved it since |
| RequestHistory.OutcomeByHistory | codex-rs/app-server/src/outgoing_message.rs:237-326 | Over every such run: a request has an outcome if and only if an action found it pending and resolved it in this way |
| TurnBoundaries.SilentIff | codex-rs/app-server/src/bespoke_event_handling.rs:1766-2171 | A handler submits nothing if and only if its callback received an error with the reason of a turn transition, whoever sent it, or it is an older command approval that failed |
| TurnBoundaries.ApprovalNeedsAnswer | codex-rs/app-server/src/bespoke_event_handling.rs:1766-2171 | No handler approves anything unless the client's answer decodes to an approval |
| TurnBoundaries.AtMostOneOperation | codex-rs/app-server/src/bespoke_event_handling.rs:1766-2171 | Over every run a request leads to at most one operation, to none before it is resolved and to none if an error with the reason of a turn transition resolved it; a handler that has run submitted exactly what its one outcome calls for, which `TurnAnswers` spells out for every kind of request |
| TurnBoundaries.HandledSilentIff | codex-rs/app-server/src/bespoke_event_handling.rs:1766-2171 | Over every run a request whose handler has run, other than an older command approval, led to no operation if and only if its one outcome carries the reason |
| TurnBoundaries.ClientErrorSilences | codex-rs/app-server/src/server_request_error.rs:5-12 | A run without any turn transition in which a client's error with the reason silences the handler of any request |
| TurnBoundaries.SilencedForever | codex-rs/app-server/src/server_request_error.rs:5-12 | A request resolved by an error with the reason leads to no operation in any later run |
| TurnBoundaries.SilencedIffCaught | codex-rs/app-server/src/bespoke_event_handling.rs:188-203 | Over every run in which only turn transitions carry the reason: such an error resolved a request, and a handler that has run is silent, if and only if a turn transition caught the request pending |
| TurnBoundaries.TransitionIsClean | codex-rs/app-server/src/bespoke_event_handling.rs:188-203 | After a turn transition no request of the thread is pending, those that were are resolved as a transition, and other threads' requests are as before |
| TurnBoundaries.TransitionSilencesForever | codex-rs/app-server/src/outgoing_message.rs:104-116 | A request that a transition catches pending never leads to an operation in any later run |
| TurnAnswers.FileChangeAnswered | codex-rs/app-server/src/bespoke_event_handling.rs:1962-2057 | Over every run, once the handler of an answered file change has run, it has submitted exactly one operation, with the item's id: approved, approved for the session or aborted if and only if the answer decodes to that, and denied if and only if it declines or cannot be read |
| TurnAnswers.CommandAnswered | codex-rs/app-server/src/bespoke_event_handling.rs:2059-2171 | The same for a command and all six decisions, with the turn id and the approval's own id, or else the item's; amendments are passed on unchanged |
| TurnAnswers.ReviewAnswered | codex-rs/app-server/src/bespoke_event_handling.rs:1766-1865 | The same for the two older approvals: the decoded decision, or a refusal where the answer cannot be read |
| TurnAnswers.ApprovalFailed | codex-rs/app-server/src/bespoke_event_handling.rs:1766-2171 | Over every run, a failed approval request whose handler has run was denied under its own ids, except that the older one for commands submitted nothing |
| TurnAnswers.UserInputHandled | codex-rs/app-server/src/bespoke_event_handling.rs:1867-1937 | Over every run, the user's answers reach their turn as decoded, and an unreadable answer or a failed request gives the empty map |
| TurnAnswers.ToolCallHandled | codex-rs/app-server/src/dynamic_tools.rs:14-65 | Over every run, a tool's response reaches its call as decoded; an unreadable one and a failed request are reported as failures with their two texts |
| TurnAnswers.ResolutionDecides | codex-rs/app-server/src/outgoing_message.rs:237-326 | The event that finds a request pending and resolves it decides: whatever follows, once woken its handler has run with that outcome and for what was registered |
| ThreadStateIndex.ApplyConsistent | codex-rs/app-server/src/thread_state.rs:157-455 | Every operation keeps the three maps consistent |
| ThreadStateIndex.ReachableConsistent | codex-rs/app-server/src/thread_state.rs:139-145 | In every reachable state both directions list the same pairs, no connection has an empty entry, and every subscription is backed by a pair |
| ThreadStateIndex.RemovedIsAbsent | codex-rs/app-server/src/thread_state.rs:406-455 | A removed connection is in none of the maps |
| ThreadStateIndex.AbsentUnlessBroughtBack | codex-rs/app-server/src/thread_state.rs:322-404 | An operation keeps an absent connection absent if and only if it neither initializes it nor sets a listener for it |
| ThreadStateIndex.RemovedStaysAbsent | codex-rs/app-server/src/thread_state.rs:354-455 | After removal in any run, no later run of other operations, the `try_` operations included, brings the connection back |
| ThreadStateIndex.OtherPairsUnaffected | codex-rs/app-server/src/thread_state.rs:157-455 | An operation leaves every pair of thread and connection alone that it does not concern |
| ThreadStateIndex.ThreadStateManager.ConnectionInitialized | codex-rs/app-server/src/thread_state.rs:157-163 | The connection becomes live and nothing else changes |
| ThreadStateIndex.ThreadStateManager.SubscribedConnectionIds | codex-rs/app-server/src/thread_state.rs:165-172 | The subscribers of a thread are exactly the connections that list it |
| ThreadStateIndex.ThreadStateManager.HasSubscribers | codex-rs/app-server/src/thread_state.rs:313-320 | True if and only if some connection lists the thread |
| ThreadStateIndex.ThreadStateManager.GetThreadState | codex-rs/app-server/src/thread_state.rs:174-177 | The thread gets an empty entry if it has none |
| ThreadStateIndex.ThreadStateManager.RemoveListener | codex-rs/app-server/src/thread_state.rs:179-241 | The listener goes; its pair goes too unless another subscription needs it |
| ThreadStateIndex.ThreadStateManager.RemoveThreadState | codex-rs/app-server/src/thread_state.rs:243-271 | The thread leaves all maps |
| ThreadStateIndex.ThreadStateManager.UnsubscribeConnectionFromThread | codex-rs/app-server/src/thread_state.rs:273-311 | The pair and its subscriptions go if the pair is there, and the result says so |
| ThreadStateIndex.ThreadStateManager.SetListener | codex-rs/app-server/src/thread_state.rs:322-352 | The subscription and its pair are recorded, live connection or not |
| ThreadStateIndex.ThreadStateManager.TryEnsureConnectionSubscribed | codex-rs/app-server/src/thread_state.rs:354-381 | The pair is recorded if the connection is live, otherwise nothing changes |
| ThreadStateIndex.ThreadStateManager.TryAddConnectionToThread | codex-rs/app-server/src/thread_state.rs:383-404 | The same, with the outcome as the result |
| ThreadStateIndex.ThreadStateManager.RemoveConnection | codex-rs/app-server/src/thread_state.rs:406-455 | The loop over the connection's threads makes the step that removes it everywhere |
| SubscriberHistory.SubscribersByHistory | codex-rs/app-server/src/thread_state.rs:157-455 | Over every run of operations, from their history: a connection is live if and only if it was initialized and not removed since; a listener is there if and only if it was set and neither replaced nor taken away since; and a connection is subscribed to a thread, in both directions, if and only if it was and nothing has parted them since |
| ThreadStatusWatch.ClientsFollow | codex-rs/app-server/src/thread_status.rs:137-267 | After every run: replaying the notifications gives the status of every thread, the published count is the number of running threads, and a waiting flag has an outstanding guard: about to be handed out, live, or dropped and not yet noted; `ThreadStatusHistory` says what that status is |
| ThreadStatusWatch.FlagUpIff | codex-rs/app-server/src/thread_status.rs:33-66 | From any moment without outstanding guards, and while the thread is not reset, a flag is up if and only if a guard is outstanding, so it is up without a live guard exactly when one is about to be handed out or waits for its release |
| ThreadStatusWatch.FlagOutlivesGuard | codex-rs/app-server/src/thread_status.rs:48-66 | A run after which a flag is up although its only guard was dropped |
| ThreadStatusWatch.LateReleaseHidesRequest | codex-rs/app-server/src/thread_status.rs:238-257 | A run with a reset after which a guard is live and its flag is down |
| ThreadStatusWatch.AnnouncedIffChanged | codex-rs/app-server/src/thread_status.rs:344-366 | A notification is sent if and only if the thread's status changes or an untracked thread is shut down; other threads keep their status |
| ThreadStatusWatch.StaysNotLoadedIff | codex-rs/app-server/src/thread_status.rs:238-257 | A thread that is not loaded stays so if and only if the event is for another thread, a removal or a shutdown |
| ThreadStatusWatch.LateReleaseRevives | codex-rs/app-server/src/thread_status.rs:238-257 | A run in which releasing an old guard announces a removed thread as idle |
| ThreadStatusWatch.ThreadWatchManager.MutateAndPublish | codex-rs/app-server/src/thread_status.rs:213-236 | One locked mutation with its publication makes one step of the watch |
| ThreadStatusWatch.ThreadWatchManager.Note | codex-rs/app-server/src/thread_status.rs:93-181 | Each of the `note_` operations, upsert and remove makes the step of its event |
| ThreadStatusWatch.ThreadWatchManager.NotePendingRequest | codex-rs/app-server/src/thread_status.rs:199-211 | The request is counted and published, and then a guard is handed out |
| ThreadStatusWatch.ThreadWatchManager.DropGuard | codex-rs/app-server/src/thread_status.rs:53-66 | Dropping a live guard changes no fact and spawns one task that is to note its release |
| ThreadStatusWatch.ThreadWatchManager.NoteActiveGuardReleased | codex-rs/app-server/src/thread_status.rs:238-248 | A spawned task makes the step that notes the release, once |
| ThreadStatusWatch.ThreadWatchManager.LoadedStatusForThread | codex-rs/app-server/src/thread_status.rs:339-342 | What a client is told when it asks is what it would hold from replaying the notifications, the status of `ThreadStatusHistory.StatusByHistory` |
| ThreadStatusHistory.StatusByHistory | codex-rs/app-server/src/thread_status.rs:368-390 | Over every run, from the history of events: a client holds NotLoaded if and only if the thread's last event removed it or shut it down, or there is none; Active if and only if it is loaded and its turn runs or a request waits, with exactly the flags of the waiting requests; SystemError if and only if it is loaded, not active, and failed since its last start or removal; Idle otherwise |
| ThreadStatusHistory.RunningByHistory | codex-rs/app-server/src/thread_status.rs:137-178 | Over every run, the running threads are those whose last turn event is a start, and the published count is their number |
| ThreadStatusHistory.PendingIsBestBalance | codex-rs/app-server/src/thread_status.rs:180-267 | The requests counted as waiting are the largest surplus of requests over releases since any moment after the last end of a turn, in histories of less than 2^32 events |
| ThreadStatusHistory.WaitsIff | codex-rs/app-server/src/thread_status.rs:180-267 | A flag's requests wait if and only if, since some such moment, more requests were made than released |
| TransportDelivery.DeliveryHasNoGaps | codex-rs/app-server/src/transport.rs:578-668 | Over every run with any interleaving: while a connection is in the table, everything meant for it (each message taken up for it, filtered and unless opted out) has entered its queue in order or waits for room; afterwards at most the last one, the refused one, is missing; what its writer received is a prefix |
| TransportDelivery.AttemptsAreAimed | codex-rs/app-server/src/transport.rs:637-668 | Over every run: the messages taken up for a connection and those left of the current envelope are exactly those that the envelopes aimed at it, in order |
| TransportDelivery.RouteAims | codex-rs/app-server/src/transport.rs:637-668 | An envelope yields one delivery for each connection it is aimed at: the named one, or each initialized one that did not opt out |
| TransportDelivery.RoutedIsDelivered | codex-rs/app-server/src/transport.rs:578-668 | End to end: while a connection keeps its settings and its place in the table, what enters its queue is exactly what was routed to it, in order and filtered for it as `TransportRouting.RoutedReaches` describes |
| TransportRouting.RoutedReaches | codex-rs/app-server/src/transport.rs:546-668 | While a connection keeps its settings and its place in the table, what enters its queue is all that was routed to it, by name and, once initialized, by broadcast, in order: exactly the notifications it opted out of are left out, and a message is changed if and only if it is a command approval with additional permissions for a client without the experimental capability, which loses them |
| TransportRouting.ConfiguredReaches | codex-rs/app-server/src/transport.rs:546-668 | The same from a configuration on, with the settings that were asked for |
| TransportRouting.OpenedReaches | codex-rs/app-server/src/transport.rs:546-668 | The same from the opening on: not initialized, nothing opted out, no experimental capability, and an empty queue |
| TransportDelivery.InTableIff | codex-rs/app-server/src/transport.rs:567-611 | A connection is in the table after a step if and only if the step opens it, or it was there and is neither closed, nor disconnected with all others, nor refused a message |
| TransportDelivery.GoneForever | codex-rs/app-server/src/transport.rs:567-611 | Once a connection is out of the table nothing more is put into its queue by the router, over every later run |
| TransportDelivery.RemovedIffRefused | codex-rs/app-server/src/transport.rs:578-611 | A delivery removes the connection if and only if a message is meant for it or waits for it and the queue is closed, or full for a connection that can be dropped |
| TransportDelivery.SendTouchesOnly | codex-rs/app-server/src/transport.rs:578-611 | A delivery to one connection changes neither the entry nor the queue of another |
| TransportDelivery.ExperimentalFieldsNeverEnter | codex-rs/app-server/src/transport.rs:613-635 | Over every run, the queue of a client that never had the experimental capability never holds experimental fields |
| TransportDelivery.OptedOutNeverEnters | codex-rs/app-server/src/transport.rs:546-565 | Once a client has opted out of a notification, and until it takes that back, none enters its queue that was not waiting already |
| TransportDelivery.NoBroadcastBeforeInitialization | codex-rs/app-server/src/transport.rs:637-668 | Until a connection is initialized, all that enters its queue was routed to it by name, and a broadcast of that time is not aimed at it later either |
| Transport.NothingDroppedUnlessFull | codex-rs/app-server/src/transport.rs:488-527 | An incoming message is dropped in silence if and only if the inbox is closed, or it is a request while the inbox is full and the writer queue is full or closed |
| Transport.IncomingIsSettled | codex-rs/app-server/src/transport.rs:488-527 | A message is taken in if and only if the inbox is open and has room; a writer's queue gets nothing but the overload error for the very request; the reader stops if and only if what it would have used is closed, and waits only with a message that is no request |
| Transport.OverloadIsPushed | codex-rs/app-server/src/transport.rs:488-527 | What a full inbox does to a connection's queue is exactly the step of the state machine that pushes an overload error past the router |
| Transport.OutboundRouter.DisconnectConnection | codex-rs/app-server/src/transport.rs:567-576 | The entry goes, and the result says whether it was there |
| Transport.OutboundRouter.AwaitRoom | codex-rs/app-server/src/transport.rs:606-610 | The wait is a run of the writer alone and ends when the queue has room or the writer has gone away |
| Transport.OutboundRouter.PutOrDisconnect | codex-rs/app-server/src/transport.rs:591-610 | The queue takes the message or the connection is removed, and the result says which |
| Transport.OutboundRouter.SendMessageToConnection | codex-rs/app-server/src/transport.rs:578-611 | Sending makes exactly one delivery, with a wait for room where the connection cannot be dropped; the result is true if and only if the connection was removed |
| Transport.OutboundRouter.RouteOutgoingEnvelope | codex-rs/app-server/src/transport.rs:637-668 | Routing an envelope is the run that takes it up and then makes all its deliveries |
| SchemaRefs.CollectRefHere | codex-rs/app-server-protocol/src/export.rs:1148-1168 | A local reference is marked and queued if and only if it is new |
| SchemaRefs.CollectRefs | codex-rs/app-server-protocol/src/export.rs:1126-1146 | Exactly the references anywhere in the value are marked, and each new one is queued once |
| SchemaRefs.CollectOuterRefs | codex-rs/app-server-protocol/src/export.rs:1101-1124 | The same for the references outside definition maps |
| SchemaRefs.ReachableLocalDefinitions | codex-rs/app-server-protocol/src/export.rs:1084-1099 | The worklist ends and returns the least set with the root's references that is closed under the references of its definitions |
| SchemaRefs.ReachableSetIsUnique | codex-rs/app-server-protocol/src/export.rs:1084-1099 | There is only one such set, so the order of the worklist does not matter |
| SchemaRefs.KeptVariants | codex-rs/app-server-protocol/src/export.rs:1048-1082 | Exactly the variants of the given methods go |
| SchemaRefs.StrippedReferencesResolve | codex-rs/app-server-protocol/src/export.rs:1048-1066 | Every definition left is reachable and unchanged, and every reference from the root or from one of them resolves to what it did before |
| SchemaRefs.StrippedIsMinimal | codex-rs/app-server-protocol/src/export.rs:1048-1066 | Whatever set of definitions keeps all references resolving holds every definition that is left |
| SchemaRefs.VariantsAreNotDefinitions | codex-rs/app-server-protocol/src/export.rs:1048-1057 | Removing variants touches no definition |
| SchemaRefs.StripMethodVariants | codex-rs/app-server-protocol/src/export.rs:1048-1066 | The schema loses the variants of the methods and exactly the definitions that are then unreachable, keeping all references; without variants it is returned as it is |
| SchemaPaths.RefHereIff | codex-rs/app-server-protocol/src/export.rs:1148-1168 | A value refers to a definition if and only if its `$ref` is the path of that definition or of something inside it |
| SchemaPaths.RefsIff | codex-rs/app-server-protocol/src/export.rs:1126-1146 | The references of a value are those of all values that a path inside it leads to |
| SchemaPaths.OuterRefsIff | codex-rs/app-server-protocol/src/export.rs:1101-1124 | The root's own references are those of the values that a path leads to without entering a definition map |
| SchemaPaths.ReachableIffChain | codex-rs/app-server-protocol/src/export.rs:1084-1099 | A definition is reachable if and only if a chain of references that starts outside the definition maps ends in it |
| SchemaPaths.MethodVariantIff | codex-rs/app-server-protocol/src/export.rs:1068-1082 | A variant is one of the methods if and only if its `method` property has one of them as its constant or, without a constant text, as its first enumerated value |
| SchemaPaths.KeptVariantsInOrder | codex-rs/app-server-protocol/src/export.rs:1048-1057 | Each variant is kept or dropped by itself, and those kept keep their order |
| SchemaPaths.KeptDefinitionsInOrder | codex-rs/app-server-protocol/src/export.rs:1058-1065 | Each definition is kept or dropped by its name alone, and those kept keep their order |
| TopLevelSplit.ScanState.Observe | codex-rs/app-server-protocol/src/export.rs:817-851 | Observing a character makes one step of the scanner |
| TopLevelSplit.SplitTopLevelMulti | codex-rs/app-server-protocol/src/export.rs:687-706 | The loop over character positions computes the parts between top-level delimiters, trimmed and without empty ones |
| TopLevelSplit.TrimmedBehavesAlike | codex-rs/app-server-protocol/src/export.rs:809-870 | Scanning a trimmed part from the start meets no delimiter and ends at the top level if it did so in its context |
| TopLevelSplit.SplitFromIsRejoinable | codex-rs/app-server-protocol/src/export.rs:687-706 | Splitting yields only parts that a further split leaves alone, all closed except perhaps the last |
| TopLevelSplit.SplitOfJoinFrom | codex-rs/app-server-protocol/src/export.rs:264-273 | Splitting joined parts gives back exactly those parts |
| TopLevelSplit.SubListRejoinable | codex-rs/app-server-protocol/src/export.rs:264-273 | Any sub-list of rejoinable parts, by position, is rejoinable |
| TopLevelSplit.SplitOfKeptArms | codex-rs/app-server-protocol/src/export.rs:264-273 | For every body and every sub-list of its arms, joining the sub-list and splitting gives exactly that sub-list |
| TopLevelSplit.FilterThenSplit | codex-rs/app-server-protocol/src/export.rs:264-273 | For every body and filter, splitting the filtered union gives exactly the kept arms, and filtering twice is filtering once |
| TypeTexts.ScanType | codex-rs/app-server-protocol/src/export.rs:809-870 | The text of a type in which brackets and string literals are closed leads the scanner back to where it was and is cut nowhere, however deep it nests |
| TypeTexts.SplitOfTypes | codex-rs/app-server-protocol/src/export.rs:687-706 | Such types, joined by a delimiter, are split into themselves again, whatever delimiters their brackets and literals hold |
| TypeTexts.ArrowClosesAngle | codex-rs/app-server-protocol/src/export.rs:817-851 | An arrow inside angle brackets closes them for the scanner, which then cuts inside the type |
| TypeTexts.KeptArmsInOrder | codex-rs/app-server-protocol/src/export.rs:264-273 | Each arm is kept or dropped by itself, and those kept keep their order |
| CanonicalJson.SortKeySurvives | codex-rs/app-server-protocol/src/schema_fixtures.rs:152-169 | Canonical form does not change a value's sort key |
| CanonicalJson.CanonicalIsIdempotent | codex-rs/app-server-protocol/src/schema_fixtures.rs:94-150 | A canonical form is its own canonical form |
| CanonicalJson.CanonicalEqualIff | codex-rs/app-server-protocol/src/schema_fixtures.rs:94-169 | For any injective serialization: two values have equal canonical forms if and only if they differ only in the order of object keys and of arrays whose elements all have a sort key |
| JsonText.SerializeUnique | codex-rs/app-server-protocol/src/schema_fixtures.rs:122 | The compact text of a value determines the value and where it ends |
| JsonText.SerializeInjective | codex-rs/app-server-protocol/src/schema_fixtures.rs:122 | Different values have different compact texts |
| CanonicalJson.SameCanonicalFormIff | codex-rs/app-server-protocol/src/schema_fixtures.rs:94-169 | The same equivalence for the compact text that is used, with no hypothesis on it |
| CanonicalOrder.StringLeqIff | codex-rs/app-server-protocol/src/schema_fixtures.rs:128-147 | Texts are in order if and only if they are the same, one is a prefix, or the first difference decides |
| CanonicalOrder.KeyedIff | codex-rs/app-server-protocol/src/schema_fixtures.rs:152-169 | A value has a sort key if and only if it is no array and, as an object, refers or has a title |
| CanonicalOrder.SameKeyIff | codex-rs/app-server-protocol/src/schema_fixtures.rs:152-169 | Two sort keys are the same if and only if the values are the same simple value, refer to the same definition, or refer to none and have the same title |
| CanonicalOrder.KindsInOrder | codex-rs/app-server-protocol/src/schema_fixtures.rs:152-169 | Booleans come before numbers, then null, references, strings and titled objects |
| CanonicalOrder.CanonicalObject | codex-rs/app-server-protocol/src/schema_fixtures.rs:138-147 | A canonical object holds the same keys with canonical values, in strictly increasing order |
| CanonicalOrder.CanonicalArray | codex-rs/app-server-protocol/src/schema_fixtures.rs:98-136 | A canonical array holds the canonical items, in order of sort keys and then of texts if all have one, and otherwise in their own order |
| JsonReading.StringReadsBack | codex-rs/app-server-protocol/src/schema_fixtures.rs:122-123 | The literal that is written for a string, read by section 7 of RFC 8259, is that string again, and what follows it is left |
| Sorting.SortEqualIff | codex-rs/app-server-protocol/src/schema_fixtures.rs:98-135 | Under a total order in which only equal members are equivalent, two lists sort alike if and only if they have the same members as often |
| ScopeAllocator.NormalizedNameIsClean | tools/codex-multi/orchestrator.py:307-317 | A normalized agent name is not empty, starts with a letter, has at most 48 characters and holds no slash or other special character |
| ScopeForms.NameOfWords | tools/codex-multi/orchestrator.py:307-317 | A name of words with anything else around and between them becomes the words with single dashes between them, after `agent-` if it does not start with a letter, cut off after 48 characters; without words it is `agent` |
| Scopes.BlocksAtMostOne | tools/codex-multi/orchestrator.py:372-379 | An accepted scope that does not cover the root, that is, is neither the root nor above it, blocks at most one of the fallback scopes |
| Scopes.FreeNameExists | tools/codex-multi/orchestrator.py:1310-1312 | Among more fallback names than accepted scopes, none of which covers the root, one is free |
| Scopes.SearchFailsIff | tools/codex-multi/orchestrator.py:1305-1312 | None of the first tries, one more than there are accepted scopes, is free if and only if an accepted scope covers the root, and then no later suffix is free |
| Scopes.AllocateDisjoint | tools/codex-multi/orchestrator.py:1293-1322 | The allocated scopes are pairwise disjoint, one per task |
| ScopeForms.WrittenScope | tools/codex-multi/orchestrator.py:320-327 | A plain scope written with whitespace around it, slashes of both kinds at its ends and backslashes inside is normalized to itself |
| ScopeForms.BlankScope | tools/codex-multi/orchestrator.py:320-327 | Slashes between whitespace are no scope |
| ScopeForms.WildcardScope | tools/codex-multi/orchestrator.py:320-327 | A scope is cut off in front of its first wildcard and of the slashes there |
| ScopeForms.BaseIsAskedFor | tools/codex-multi/orchestrator.py:1298-1303 | A task asks for the scope it was written with; without one, for its own below the root, or for the root if it is the only task |
| ScopeForms.AllocatedIsGiven | tools/codex-multi/orchestrator.py:1298-1322 | Each task is given the scope it asks for if that is free of the scopes before it, and otherwise the first free one of its own scope below the root and those with numbered suffixes |
| ScopeForms.DecimalIsValue | tools/codex-multi/orchestrator.py:1309-1312 | Suffixes are decimal numbers without leading zeros |
| ScopeForms.OverlapAsWritten | tools/codex-multi/orchestrator.py:343-379 | Two written scopes overlap if and only if one takes the whole repository or, relative to `codex-rs`, one is the other or a directory above it |
| ScopeForms.CanonicalAsWritten | tools/codex-multi/orchestrator.py:343-351 | However a scope is written, with or without the root directory, its canonical form is its path relative to that directory, and empty for the directory itself |
| ScopeAllocator.HangsIff | tools/codex-multi/orchestrator.py:1293-1322 | For any root that normalization leaves alone, the allocation never ends if and only if, among the scopes the tasks ask for, the first one that overlaps with an earlier one comes after one that covers the root |
| ScopeAllocator.PlainIffNormal | tools/codex-multi/orchestrator.py:320-327 | The scopes and roots taken as plain are those that normalization leaves alone |
| ScopeAllocator.OverlapsAny | tools/codex-multi/orchestrator.py:1305-1310 | The `any` check finds an overlapping scope if and only if there is one |
| ScopeAllocator.ChooseScope | tools/codex-multi/orchestrator.py:1298-1312 | The base scope, the fallback and the suffix loop compute `Choose` |
| ScopeAllocator.NormalizeDisjointScopes | tools/codex-multi/orchestrator.py:1293-1322 | The loop over tasks keeps names and objectives and assigns the scopes of `Allocate` |
| ScopeAllocator.ValidateScopeRules | tools/codex-multi/orchestrator.py:1485-1494 | The issues are exactly the overlapping pairs, and the tasks pass if and only if all scopes are disjoint |
| ScopeAllocator.AllocationIsValid | tools/codex-multi/orchestrator.py:1293-1322 | Every allocation that ends passes the validation |
| ScopeAllocator.HangsIffFirstTakesAll | tools/codex-multi/orchestrator.py:1293-1322 | With the default root the allocation never ends if and only if there are several tasks and the first one's scope is the whole repository |
| ScopeAllocator.SharedPathIff | tools/codex-multi/orchestrator.py:354-379 | Two scopes that do not overlap hold a common path if and only if one overlaps with the other's `codex-rs/` form |
| ScopeAllocator.DisjointScopesShareNoPath | tools/codex-multi/orchestrator.py:354-379 | If neither canonical form starts with the segment `codex-rs`, no path is in both of two scopes that do not overlap |
| ScopeAllocator.DoubledScopesShareAPath | tools/codex-multi/orchestrator.py:343-379 | Every plain scope that is not doubled itself shares a path with its doubled form, which the overlap check accepts beside it |

## Left out

- Extracting a patch from a shell script with tree-sitter, and the text of the unified diff: library behaviour; the model starts from the patch text and compares new contents only.
- Input and output: permissions, other I/O errors, creating parent directories, printed summaries. The file system is a map from absolute paths to files, so symbolic links, `..` and directories are not modelled, and writes do not fail.
- Error messages: they are modelled as kinds of errors with the data they mention.
- Text is a sequence of characters; byte offsets of UTF-8 are not modelled, and neither is lossy path conversion.
- Sorting.SortEqualIff: `sort_by` is a stable sort function, not the library's in-place algorithm.
- Outgoing.OutgoingMessageSender.SendRequest: makes its steps in one go, with the channel's answers as parameters; other tasks' steps in between are covered by the runs of the state machine.
- Outgoing.OutgoingMessageSender.PendingRequestsForThread: sending the replayed messages is not modelled.
- TurnBoundaries.AtMostOneOperation: decoding a client's JSON answer is a parameter, and the completion notifications that some handlers send to the client are not modelled; neither is the rest of the turn summary.
- ThreadStateIndex.ThreadStateManager.SetListener: the listener's channels, generation number and raw-events flag inside a thread's own state are not modelled, only the maps.
- ThreadStatusWatch.ThreadWatchManager.MutateAndPublish: notifications are taken to leave in the order in which the lock is held; running counts are unbounded, pending counters saturate at 32 bits as in the code. Merging a status with an in-progress turn (`resolve_thread_status`) is one branch and not modelled.
- ThreadStatusHistory.PendingIsBestBalance: in histories of 2^32 events and more, where a counter can saturate, waiting requests are described by the saturating count alone.
- Transport.OutboundRouter.RouteOutgoingEnvelope: the order in which the connection table is traversed is a parameter, and waiting for room is a run of the writer that takes messages out; web sockets, serialization and tracing are not modelled.
- TopLevelSplit.ScanState.Observe: depths are unbounded instead of 32 bits wide.
- CanonicalJson.SameCanonicalFormIff: numbers are their text, in digits, signs, points and exponents; how a number is turned into that text is not modelled.
- JsonReading.StringReadsBack: surrogate escapes, which are never written, are not read.
- TypeTexts.SplitOfTypes: types with a bracket that is not closed by its own kind, such as an arrow, are covered by `ArrowClosesAngle` only inside angle brackets.
- Scopes.SearchFailsIff: roots that normalization changes (with glob characters, or with spaces or slashes at an end) are not covered; the program passes only `codex-rs` and `analysis`.
- PatchReparse.ParseOfReprint: patches with a line that ends in a bare carriage return are not covered, because reading lines drops it.
- ScopeAllocator.NormalizeDisjointScopes: gives `None` where the source would loop for ever, which `Scopes.SearchFailsIff` shows to be the same case.
- ScopeAllocator.NormalizedNameIsClean: starts from the stripped and lower-cased name; Unicode case folding is not modelled.
- Widths of `usize` and `u64`, except for the 64-bit request counter.
- One-to-one translations of events to notifications, configuration, the schema generators, titles and formatting in `export.rs`, planner prompts, worktrees, subprocesses and the dashboard of the orchestrator: each is settled by reading one branch, or is input and output.
