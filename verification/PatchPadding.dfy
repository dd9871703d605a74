/** Whitespace around the markers and around the header lines of hunks makes no difference. */
module PatchPadding {
  import opened Wrappers
  import opened Text
  import opened PatchSyntax
  import opened PatchParser

  // ---------- Markers ----------

  /** The lines lie between the two markers, however these are padded. */
  predicate IsMarked(lines: seq<string>) {
    |lines| >= 2 && Trim(lines[0]) == "*** Begin Patch" && Trim(lines[|lines| - 1]) == "*** End Patch"
  }

  /** Lines are accepted exactly when they are marked; a wrong first line is reported before a wrong last one. */
  lemma BoundaryErrorIff(lines: seq<string>)
    ensures StrictBoundaryError(lines).None? <==> IsMarked(lines)
    ensures StrictBoundaryError(lines) == Some(FirstLineNotBegin) <==>
            lines != [] && Trim(lines[0]) != "*** Begin Patch"
    ensures StrictBoundaryError(lines) == Some(LastLineNotEnd) <==>
            lines == [] || (!IsMarked(lines) && Trim(lines[0]) == "*** Begin Patch")
  {
    hide Trim;
    assert BEGIN_PATCH_MARKER[4] != END_PATCH_MARKER[4];
  }

  /** The lines of a patch are taken as they are if they are marked, and in lenient mode without a heredoc around
      them; nothing else is accepted. */
  lemma AcceptedIff(lines: seq<string>, mode: ParseMode, accepted: seq<string>)
    ensures PatchLines(lines, mode) == Success(accepted) <==>
            || (IsMarked(lines) && accepted == lines)
            || (!IsMarked(lines) && mode == Lenient && IsMarked(accepted)
                && exists opener, closer ::
                     && opener in {"<<EOF", "<<'EOF'", "<<\"EOF\""} && EndsWith(closer, "EOF")
                     && lines == [opener] + accepted + [closer])
  {
    BoundaryErrorIff(lines);
    BoundaryErrorIff(accepted);
    hide IsMarked, StrictBoundaryError, EndsWith;
    if PatchLines(lines, mode) == Success(accepted) && !IsMarked(lines) {
      assert lines == [lines[0]] + accepted + [lines[|lines| - 1]];
      assert lines[0] in {"<<EOF", "<<'EOF'", "<<\"EOF\""};
    }
    if opener, closer :| lines == [opener] + accepted + [closer] && EndsWith(closer, "EOF")
                         && opener in {"<<EOF", "<<'EOF'", "<<\"EOF\""} {
      assert lines[1..|lines| - 1] == accepted;
      assert lines[|lines| - 1] == closer && lines[0] == opener;
      if IsMarked(accepted) {
        MarkedHasTwo(accepted);
      }
    }
  }

  lemma MarkedHasTwo(lines: seq<string>)
    requires IsMarked(lines)
    ensures |lines| >= 2
  {
  }

  /** The chunks of an update go on to the end of the body or to the first line after a chunk that starts with three
      asterisks, and there are none where such a line comes first. */
  lemma UpdateEndsAtStars(lines: seq<string>, lineNumber: nat, first: bool)
    ensures lines != [] && "***" <= lines[0] ==> ParseChunks(lines, lineNumber, first) == Success(([], 0))
    ensures ParseChunks(lines, lineNumber, first).Success? ==>
              var n := ParseChunks(lines, lineNumber, first).value.1;
              n == |lines| || "***" <= lines[n]
  {
    if lines != [] && "***" <= lines[0] {
      assert lines[0][0] == '*' && lines[0][1] == '*' && lines[0][2] == '*';
      StarsNotBlank(lines[0]);
    }
    hide IsBlank, ParseChunk;
    if ParseChunks(lines, lineNumber, first).Success? {
      ChunksEnd(lines, lineNumber, first);
    }
  }

  lemma StarsNotBlank(line: string)
    requires line != "" && line[0] == '*'
    ensures !IsBlank(line)
  {
    var lead, trail := TrimSplits(line);
    assert Trim(line) == "" ==> line == lead + trail && AllWhitespace(line);
    assert !IsWhitespace(line[0]);
  }

  // ---------- Headers ----------

  predicate StartsWithHeader(line: string) {
    ADD_FILE_MARKER <= line || DELETE_FILE_MARKER <= line || UPDATE_FILE_MARKER <= line
  }

  /** The same line, or a header with other whitespace at its end. */
  predicate SameLine(a: string, b: string) {
    a == b || (StartsWithHeader(a) && StartsWithHeader(b) && Trim(a) == Trim(b))
  }

  predicate SameLines(a: seq<string>, b: seq<string>) {
    |a| == |b| && forall i :: 0 <= i < |a| ==> SameLine(a[i], b[i])
  }

  lemma HeaderStopsAll(line: string)
    requires StartsWithHeader(line)
    ensures line != EOF_MARKER && !IsDiffLine(line) && EndsUpdate(line) && !("+" <= line)
    ensures !(MOVE_TO_MARKER <= line) && line != EMPTY_CHANGE_CONTEXT_MARKER && !(CHANGE_CONTEXT_MARKER <= line)
  {
    var m, e := MOVE_TO_MARKER, EOF_MARKER;
    assert line[4] == 'A' || line[4] == 'D' || line[4] == 'U';
    assert m[4] == 'M' && e[4] == 'E' && line[0] == '*';
    assert CHANGE_CONTEXT_MARKER[0] == '@' && EMPTY_CHANGE_CONTEXT_MARKER[0] == '@';
  }

  lemma HeaderNotBlank(line: string)
    requires StartsWithHeader(line)
    ensures !IsBlank(line)
  {
    assert line[0] == '*';
    StarsNotBlank(line);
  }

  lemma SameTails(a: seq<string>, b: seq<string>, k: nat)
    requires SameLines(a, b) && k <= |a|
    ensures SameLines(a[k..], b[k..])
  {
    hide SameLine;
    forall i | 0 <= i < |a| - k
      ensures SameLine(a[k..][i], b[k..][i])
    {
      assert SameLine(a[k + i], b[k + i]);
    }
  }

  lemma {:induction false} SameDiff(a: seq<string>, b: seq<string>)
    requires SameLines(a, b)
    ensures ReadDiff(a) == ReadDiff(b)
    decreases |a|
  {
    if a == [] {
    } else {
      SameTails(a, b, 1);
      assert SameLine(a[0], b[0]);
      hide SameLines, SameLine, IsDiffLine, StartsWithHeader;
      if a[0] == b[0] {
        SameDiff(a[1..], b[1..]);
      } else {
        HeadersDiffer(a[0], b[0]);
        HeaderStopsAll(a[0]);
        HeaderStopsAll(b[0]);
      }
    }
  }

  lemma HeadersDiffer(a: string, b: string)
    requires SameLine(a, b) && a != b
    ensures StartsWithHeader(a) && StartsWithHeader(b) && Trim(a) == Trim(b)
  {
  }

  lemma {:induction false} SameAdded(a: seq<string>, b: seq<string>)
    requires SameLines(a, b)
    ensures ReadAddedLines(a) == ReadAddedLines(b)
    decreases |a|
  {
    if a == [] {
    } else {
      SameTails(a, b, 1);
      assert SameLine(a[0], b[0]);
      hide SameLines, SameLine, StartsWithHeader;
      if a[0] == b[0] {
        SameAdded(a[1..], b[1..]);
      } else {
        HeadersDiffer(a[0], b[0]);
        HeaderStopsAll(a[0]);
        HeaderStopsAll(b[0]);
      }
    }
  }

  lemma SameFirstDiff(a: seq<string>, b: seq<string>, lineNumber: nat)
    requires SameLines(a, b) && a != [] && ReadFirstDiff(a, lineNumber).Success?
    ensures ReadFirstDiff(b, lineNumber) == ReadFirstDiff(a, lineNumber)
  {
    assert SameLine(a[0], b[0]);
    SameDiff(a, b);
    hide SameLines, SameLine, IsDiffLine, StartsWithHeader, ReadDiff;
    if a[0] != b[0] {
      HeadersDiffer(a[0], b[0]);
      HeaderStopsAll(a[0]);
    }
  }

  lemma SameChunk(a: seq<string>, b: seq<string>, lineNumber: nat, first: bool)
    requires SameLines(a, b) && a != [] && !EndsUpdate(a[0]) && ParseChunk(a, lineNumber, first).Success?
    ensures ParseChunk(b, lineNumber, first) == ParseChunk(a, lineNumber, first)
  {
    assert SameLine(a[0], b[0]);
    assert a[0] == b[0] by {
      hide SameLine, StartsWithHeader;
      if a[0] != b[0] {
        HeadersDiffer(a[0], b[0]);
        HeaderStopsAll(a[0]);
      }
    }
    var start := ChunkHeader(a[0], lineNumber, first).value.1;
    SameTails(a, b, start);
    assert |a| == |b|;
    hide SameLines, SameLine, StartsWithHeader, ReadFirstDiff;
    SameFirstDiff(a[start..], b[start..], lineNumber + 1);
  }

  /** Both lines end the chunks of an update, or they are one line. */
  lemma SameOrStop(a: string, b: string)
    requires SameLine(a, b)
    ensures a == b || (EndsUpdate(a) && EndsUpdate(b) && !IsBlank(a) && !IsBlank(b))
  {
    hide SameLine, EndsUpdate, IsBlank, StartsWithHeader;
    if a != b {
      HeadersDiffer(a, b);
      HeaderStopsAll(a);
      HeaderStopsAll(b);
      HeaderNotBlank(a);
      HeaderNotBlank(b);
    }
  }

  lemma ChunksAfter(lines: seq<string>, lineNumber: nat, first: bool, chunk: Chunk, k: nat,
                    rest: Result<(seq<Chunk>, nat), ParseError>)
    requires lines != [] && !IsBlank(lines[0]) && !EndsUpdate(lines[0])
    requires ParseChunk(lines, lineNumber, first) == Success((chunk, k))
    requires k <= |lines| && ParseChunks(lines[k..], lineNumber + k, false) == rest
    ensures ParseChunks(lines, lineNumber, first) == PushedChunks([chunk], k, rest)
  {
    hide ParseChunk, IsBlank, EndsUpdate;
  }

  lemma {:induction false} SameChunks(a: seq<string>, b: seq<string>, lineNumber: nat, first: bool)
    requires SameLines(a, b) && ParseChunks(a, lineNumber, first).Success?
    ensures ParseChunks(b, lineNumber, first) == ParseChunks(a, lineNumber, first)
    decreases |a|
  {
    hide ParseChunk, IsBlank, EndsUpdate, SameLine;
    if a == [] {
    } else {
      assert SameLine(a[0], b[0]);
      SameOrStop(a[0], b[0]);
      SameTails(a, b, 1);
      if a[0] == b[0] && IsBlank(a[0]) {
        hide SameLines;
        SameChunks(a[1..], b[1..], lineNumber + 1, first);
      } else if a[0] == b[0] && !EndsUpdate(a[0]) {
        ParseChunksStep(a, lineNumber, first);
        SameChunk(a, b, lineNumber, first);
        var (chunk, k) := ParseChunk(a, lineNumber, first).value;
        SameTails(a, b, k);
        assert |a| == |b|;
        hide SameLines, ParseChunks;
        SameChunks(a[k..], b[k..], lineNumber + k, false);
        var rest := ParseChunks(a[k..], lineNumber + k, false);
        ChunksAfter(a, lineNumber, first, chunk, k, rest);
        ChunksAfter(b, lineNumber, first, chunk, k, rest);
      }
    }
  }

  /** The header of a hunk may have whitespace on both sides. */
  predicate SameHunkLines(a: seq<string>, b: seq<string>) {
    a != [] && b != [] && Trim(a[0]) == Trim(b[0]) && SameLines(a[1..], b[1..])
  }

  lemma SameUpdate(path: string, a: seq<string>, b: seq<string>, lineNumber: nat)
    requires SameHunkLines(a, b) && ParseUpdate(path, a, lineNumber).Success?
    ensures ParseUpdate(path, b, lineNumber) == ParseUpdate(path, a, lineNumber)
  {
    hide ParseChunks, Trim, StartsWithHeader;
    var x, y := a[1..], b[1..];
    SameTails(x, y, 0);
    assert x[0..] == x && y[0..] == y;
    if |a| > 1 {
      assert x[0] == a[1] && y[0] == b[1] && SameLine(x[0], y[0]);
      SameTails(x, y, 1);
      assert a[2..] == x[1..] && b[2..] == y[1..];
      if x[0] != y[0] {
        HeaderStopsAll(x[0]);
        HeaderStopsAll(y[0]);
      }
    }
    hide SameLine, SameLines;
    assert |a| > 1 ==> StripPrefix(a[1], MOVE_TO_MARKER) == StripPrefix(b[1], MOVE_TO_MARKER);
    var moves := |a| > 1 && StripPrefix(a[1], MOVE_TO_MARKER).Some?;
    var skipped := if moves then 2 else 1;
    SameChunks(a[skipped..], b[skipped..], lineNumber + skipped, true);
  }

  /** A hunk whose header is padded parses like a bare one. */
  lemma SameHunk(a: seq<string>, b: seq<string>, lineNumber: nat)
    requires SameHunkLines(a, b) && ParseHunk(a, lineNumber).Success?
    ensures ParseHunk(b, lineNumber) == ParseHunk(a, lineNumber)
  {
    SameAdded(a[1..], b[1..]);
    var header := Trim(a[0]);
    hide Trim, ParseUpdate, ReadAddedLines, SameLines;
    if !(ADD_FILE_MARKER <= header) && !(DELETE_FILE_MARKER <= header) {
      SameUpdate(header[|UPDATE_FILE_MARKER|..], a, b, lineNumber);
    }
  }

  lemma SameHunkTails(a: seq<string>, b: seq<string>, n: nat)
    requires SameHunkLines(a, b) && 1 <= n < |a|
    ensures |a| == |b| && SameHunkLines(a[n..], b[n..])
  {
    hide Trim, StartsWithHeader;
    var x, y := a[1..], b[1..];
    assert SameLine(x[n - 1], y[n - 1]);
    SameTails(x, y, n);
    assert x[n - 1] == a[n] && y[n - 1] == b[n];
    assert x[n..] == a[n..][1..] && y[n..] == b[n..][1..];
  }

  lemma HunksAfter(lines: seq<string>, lineNumber: nat, hunk: Hunk, n: nat, hunks: seq<Hunk>, spans: seq<nat>)
    requires lines != [] && ParseHunk(lines, lineNumber) == Success((hunk, n))
    requires n <= |lines| && ParseHunks(lines[n..], lineNumber + n) == Success((hunks, spans))
    ensures ParseHunks(lines, lineNumber) == Success(([hunk] + hunks, [n] + spans))
  {
    hide ParseHunk;
  }

  lemma SameLength(a: seq<string>, b: seq<string>)
    requires SameHunkLines(a, b)
    ensures |a| == |b| > 0
  {
    hide Trim, SameLine;
  }

  lemma {:induction false} SameHunks(a: seq<string>, b: seq<string>, lineNumber: nat)
    requires SameHunkLines(a, b) && ParseHunks(a, lineNumber).Success?
    ensures ParseHunks(b, lineNumber) == ParseHunks(a, lineNumber)
    decreases |a|
  {
    hide SameHunkLines, ParseHunk;
    SameLength(a, b);
    SameHunk(a, b, lineNumber);
    var (hunk, n) := ParseHunk(a, lineNumber).value;
    var (hunks, spans) := ParseHunks(a[n..], lineNumber + n).value;
    hide *;
    if n < |a| {
      SameHunkTails(a, b, n);
      SameHunks(a[n..], b[n..], lineNumber + n);
    } else {
      assert a[n..] == b[n..];
    }
    HunksAfter(a, lineNumber, hunk, n, hunks, spans);
    HunksAfter(b, lineNumber, hunk, n, hunks, spans);
  }

  lemma MarkedParse(patch: string, mode: ParseMode)
    requires IsMarked(Lines(Trim(patch)))
    ensures var lines := Lines(Trim(patch));
            ParseHunks(lines[1..|lines| - 1], 2).Success? <==> ParseText(patch, mode).Success?
    ensures var lines := Lines(Trim(patch));
            ParseText(patch, mode).Success? ==>
            ParseText(patch, mode).value.hunks == ParseHunks(lines[1..|lines| - 1], 2).value.0
  {
    var lines := Lines(Trim(patch));
    BoundaryErrorIff(lines);
    hide Lines, Trim, ParseHunks, StrictBoundaryError;
    assert PatchLines(lines, mode) == Success(lines);
  }

  /** Patches parse alike whose lines are the same but for whitespace around their markers, around the header
      of their first hunk, and at the end of the headers of the others. */
  lemma PaddedParsesAlike(bare: string, padded: string, mode: ParseMode)
    requires var a, b := Lines(Trim(bare)), Lines(Trim(padded));
             && IsMarked(a) && IsMarked(b) && |a| == |b|
             && (|a| > 2 ==> SameHunkLines(a[1..|a| - 1], b[1..|b| - 1]))
    requires ParseText(bare, mode).Success?
    ensures ParseText(padded, mode).Success?
    ensures ParseText(padded, mode).value.hunks == ParseText(bare, mode).value.hunks
  {
    var a, b := Lines(Trim(bare)), Lines(Trim(padded));
    var x, y := a[1..|a| - 1], b[1..|b| - 1];
    MarkedParse(bare, mode);
    MarkedParse(padded, mode);
    hide *;
    if |a| > 2 {
      SameHunks(x, y, 2);
    } else {
      assert x == y;
    }
  }
}
