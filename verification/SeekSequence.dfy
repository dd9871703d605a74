/** `seek_sequence`: finding where the lines of a chunk occur in a file, in four passes of
    decreasing strictness. */
module SeekSequence {
  import opened Wrappers
  import opened Text

  // ---------- The four ways of comparing lines ----------

  function NormaliseChar(c: char): char {
    if '\U{2010}' <= c <= '\U{2015}' || c == '\U{2212}' then '-'
    else if '\U{2018}' <= c <= '\U{201B}' then '\''
    else if '\U{201C}' <= c <= '\U{201F}' then '"'
    else if || c == '\U{00A0}' || '\U{2002}' <= c <= '\U{200A}' || c == '\U{202F}'
            || c == '\U{205F}' || c == '\U{3000}' then ' '
    else c
  }

  function NormaliseChars(s: string): string {
    if s == [] then [] else [NormaliseChar(s[0])] + NormaliseChars(s[1..])
  }

  function Normalise(line: string): string {
    NormaliseChars(Trim(line))
  }

  /** What a pass compares: whole lines, lines without trailing whitespace, trimmed lines, or
      trimmed lines with typographic punctuation replaced. */
  datatype Pass = Exact | IgnoreTrailing | IgnoreSurrounding | IgnorePunctuation {

    function Rank(): nat {
      match this
      case Exact => 0
      case IgnoreTrailing => 1
      case IgnoreSurrounding => 2
      case IgnorePunctuation => 3
    }

    function Laxer(): (next: Pass)
      requires !IgnorePunctuation?
    {
      match this
      case Exact => IgnoreTrailing
      case IgnoreTrailing => IgnoreSurrounding
      case IgnoreSurrounding => IgnorePunctuation
    }

    /** The part of a line that this pass looks at. */
    function View(line: string): string {
      match this
      case Exact => line
      case IgnoreTrailing => TrimEnd(line)
      case IgnoreSurrounding => Trim(line)
      case IgnorePunctuation => Normalise(line)
    }

    /** `pattern` occurs at index `i` as far as this pass can tell. */
    predicate Matches(lines: seq<string>, pattern: seq<string>, i: nat) {
      && i + |pattern| <= |lines|
      && forall k :: 0 <= k < |pattern| ==> View(lines[i + k]) == View(pattern[k])
    }
  }

  // ---------- Specification ----------

  /** The first index at or after `i` where the pass matches. */
  function FirstMatch(pass: Pass, lines: seq<string>, pattern: seq<string>, i: nat): (r: Option<nat>)
    decreases |lines| - i
  {
    if i + |pattern| > |lines| then None
    else if pass.Matches(lines, pattern, i) then Some(i)
    else if i == |lines| then None
    else FirstMatch(pass, lines, pattern, i + 1)
  }

  /** The passes from `pass` on, each tried over the whole range before the next one. */
  function FirstPass(pass: Pass, lines: seq<string>, pattern: seq<string>, from: nat): (r: Option<nat>)
    decreases 3 - pass.Rank()
  {
    var r := FirstMatch(pass, lines, pattern, from);
    if r.Some? || pass.IgnorePunctuation? then r
    else FirstPass(pass.Laxer(), lines, pattern, from)
  }

  /** Where the search begins: an end-of-file chunk is only ever tried at the very end. */
  function SearchStart(lines: seq<string>, pattern: seq<string>, start: nat, eof: bool): nat {
    if eof && |lines| >= |pattern| then |lines| - |pattern| else start
  }

  function Seek(lines: seq<string>, pattern: seq<string>, start: nat, eof: bool): (r: Option<nat>) {
    if pattern == [] then Some(start)
    else if |pattern| > |lines| then None
    else
      FirstPass(Exact, lines, pattern, SearchStart(lines, pattern, start, eof))
  }

  // ---------- Characters that count as equal ----------

  const DASHES: set<char> :=
    {'-', '\U{2010}', '\U{2011}', '\U{2012}', '\U{2013}', '\U{2014}', '\U{2015}', '\U{2212}'}
  const SINGLE_QUOTES: set<char> := {'\'', '\U{2018}', '\U{2019}', '\U{201A}', '\U{201B}'}
  const DOUBLE_QUOTES: set<char> := {'"', '\U{201C}', '\U{201D}', '\U{201E}', '\U{201F}'}
  const SPACES: set<char> :=
    {' ', '\U{00A0}', '\U{2002}', '\U{2003}', '\U{2004}', '\U{2005}', '\U{2006}', '\U{2007}', '\U{2008}',
     '\U{2009}', '\U{200A}', '\U{202F}', '\U{205F}', '\U{3000}'}

  /** The same character, or two of one class. */
  predicate Alike(a: char, b: char) {
    || a == b
    || (a in DASHES && b in DASHES)
    || (a in SINGLE_QUOTES && b in SINGLE_QUOTES)
    || (a in DOUBLE_QUOTES && b in DOUBLE_QUOTES)
    || (a in SPACES && b in SPACES)
  }

  lemma NormalisedChar(c: char)
    ensures NormaliseChar(c) == if c in DASHES then '-' else if c in SINGLE_QUOTES then '\''
                                else if c in DOUBLE_QUOTES then '"' else if c in SPACES then ' ' else c
  {
  }

  lemma ClassesAreApart(c: char)
    ensures (if c in DASHES then 1 else 0) + (if c in SINGLE_QUOTES then 1 else 0)
            + (if c in DOUBLE_QUOTES then 1 else 0) + (if c in SPACES then 1 else 0) <= 1
  {
  }

  lemma AlikeIff(a: char, b: char)
    ensures NormaliseChar(a) == NormaliseChar(b) <==> Alike(a, b)
  {
    NormalisedChar(a);
    NormalisedChar(b);
    ClassesAreApart(a);
    ClassesAreApart(b);
  }

  lemma {:induction false} NormalisedAt(s: string)
    ensures |NormaliseChars(s)| == |s| && forall i :: 0 <= i < |s| ==> NormaliseChars(s)[i] == NormaliseChar(s[i])
  {
    hide NormaliseChar;
    if s == [] {
    } else {
      NormalisedAt(s[1..]);
    }
  }

  /** For the laxest pass two lines are the same exactly when, trimmed, they are as long as each other and
      alike in every place: equal, or both a dash, a single quote, a double quote or a space of some kind. */
  lemma LinesAlikeIff(line: string, pattern: string)
    ensures IgnorePunctuation.View(line) == IgnorePunctuation.View(pattern) <==>
            && |Trim(line)| == |Trim(pattern)|
            && forall i :: 0 <= i < |Trim(line)| ==> Alike(Trim(line)[i], Trim(pattern)[i])
  {
    hide Alike, NormaliseChar, Trim;
    var a, b := Trim(line), Trim(pattern);
    NormalisedAt(a);
    NormalisedAt(b);
    if |a| == |b| {
      forall i | 0 <= i < |a|
        ensures NormaliseChars(a)[i] == NormaliseChars(b)[i] <==> Alike(a[i], b[i])
      {
        AlikeIff(a[i], b[i]);
      }
    }
  }

  // ---------- The search as it is run ----------

  /** One pass: every index from `from` on is tried, line by line, until all lines agree. */
  method RunPass(pass: Pass, lines: seq<string>, pattern: seq<string>, from: nat) returns (r: Option<nat>)
    requires |pattern| <= |lines|
    ensures r == FirstMatch(pass, lines, pattern, from)
  {
    hide Pass.View;
    var i := from;
    while i <= |lines| - |pattern|
      invariant from <= i
      invariant FirstMatch(pass, lines, pattern, from) == FirstMatch(pass, lines, pattern, i)
    {
      var ok := true;
      var k := 0;
      while k < |pattern| && ok
        invariant 0 <= k <= |pattern|
        invariant ok ==> forall j :: 0 <= j < k ==> pass.View(lines[i + j]) == pass.View(pattern[j])
        invariant !ok ==> !pass.Matches(lines, pattern, i)
      {
        if pass.View(lines[i + k]) != pass.View(pattern[k]) {
          ok := false;
        }
        k := k + 1;
      }
      if ok {
        return Some(i);
      }
      i := i + 1;
    }
    return None;
  }

  method SeekSequence(lines: seq<string>, pattern: seq<string>, start: nat, eof: bool)
    returns (r: Option<nat>)
    ensures r == Seek(lines, pattern, start, eof)
  {
    if pattern == [] {
      return Some(start);
    }
    if |pattern| > |lines| {
      return None;
    }
    var searchStart := if eof && |lines| >= |pattern| then |lines| - |pattern| else start;
    r := RunPass(Exact, lines, pattern, searchStart);
    if r.Some? { return; }
    r := RunPass(IgnoreTrailing, lines, pattern, searchStart);
    if r.Some? { return; }
    r := RunPass(IgnoreSurrounding, lines, pattern, searchStart);
    if r.Some? { return; }
    r := RunPass(IgnorePunctuation, lines, pattern, searchStart);
  }

  // ---------- Strictest first, then earliest ----------

  ghost predicate NoMatchFrom(pass: Pass, lines: seq<string>, pattern: seq<string>, from: nat) {
    forall j: nat :: from <= j ==> !pass.Matches(lines, pattern, j)
  }

  ghost predicate EarliestMatch(pass: Pass, lines: seq<string>, pattern: seq<string>, from: nat, i: nat) {
    && from <= i
    && pass.Matches(lines, pattern, i)
    && forall j: nat :: from <= j < i ==> !pass.Matches(lines, pattern, j)
  }

  /** `pass` first matches at `i`, and no stricter pass matches anywhere from `from` on. */
  ghost predicate StrictestEarliest(pass: Pass, lines: seq<string>, pattern: seq<string>, from: nat, i: nat) {
    && EarliestMatch(pass, lines, pattern, from, i)
    && forall p: Pass :: p.Rank() < pass.Rank() ==> NoMatchFrom(p, lines, pattern, from)
  }

  ghost predicate NoPassMatches(lines: seq<string>, pattern: seq<string>, from: nat) {
    forall pass: Pass :: NoMatchFrom(pass, lines, pattern, from)
  }

  lemma {:induction false} FirstMatchIsEarliest(pass: Pass, lines: seq<string>, pattern: seq<string>, from: nat)
    ensures match FirstMatch(pass, lines, pattern, from) {
              case None => NoMatchFrom(pass, lines, pattern, from)
              case Some(i) => EarliestMatch(pass, lines, pattern, from, i)
            }
    decreases |lines| - from
  {
    if from < |lines| && from + |pattern| <= |lines| && !pass.Matches(lines, pattern, from) {
      FirstMatchIsEarliest(pass, lines, pattern, from + 1);
    }
  }

  /** Lines that agree under a strict pass agree under every laxer one. */
  lemma PassesAreNested(strict: Pass, lax: Pass, lines: seq<string>, pattern: seq<string>, i: nat)
    requires strict.Rank() <= lax.Rank()
    requires strict.Matches(lines, pattern, i)
    ensures lax.Matches(lines, pattern, i)
  {
    forall k | 0 <= k < |pattern|
      ensures lax.View(lines[i + k]) == lax.View(pattern[k])
    {
      assert strict.View(lines[i + k]) == strict.View(pattern[k]);
    }
  }

  lemma NoMatchIsNested(lines: seq<string>, pattern: seq<string>, from: nat)
    requires NoMatchFrom(IgnorePunctuation, lines, pattern, from)
    ensures NoPassMatches(lines, pattern, from)
  {
    forall pass: Pass, j: nat | from <= j && pass.Matches(lines, pattern, j)
      ensures false
    {
      PassesAreNested(pass, IgnorePunctuation, lines, pattern, j);
    }
  }

  lemma {:induction false} FirstPassIsStrictest(pass: Pass, lines: seq<string>, pattern: seq<string>, from: nat)
    requires forall p: Pass :: p.Rank() < pass.Rank() ==> NoMatchFrom(p, lines, pattern, from)
    ensures var r := FirstPass(pass, lines, pattern, from);
            if r.None? then NoPassMatches(lines, pattern, from)
            else exists p :: StrictestEarliest(p, lines, pattern, from, r.value)
    decreases 3 - pass.Rank()
  {
    hide FirstMatch, Pass.Matches, EarliestMatch;
    FirstMatchIsEarliest(pass, lines, pattern, from);
    match FirstMatch(pass, lines, pattern, from)
    case Some(i) =>
      assert StrictestEarliest(pass, lines, pattern, from, FirstPass(pass, lines, pattern, from).value);
    case None =>
      if !pass.IgnorePunctuation? {
        FirstPassIsStrictest(pass.Laxer(), lines, pattern, from);
      }
  }

  lemma StrictestEarliestIsUnique(p: Pass, q: Pass, lines: seq<string>, pattern: seq<string>,
                                  from: nat, i: nat, j: nat)
    requires StrictestEarliest(p, lines, pattern, from, i)
    requires StrictestEarliest(q, lines, pattern, from, j)
    ensures p == q && i == j
  {
    assert p.Matches(lines, pattern, i) && q.Matches(lines, pattern, j);
    assert p.Rank() == q.Rank();
  }

  /** A non-empty pattern that fits is found at `i` exactly when `i` is the earliest match of the
      strictest pass that matches anywhere in the range. */
  lemma FoundIsStrictestThenEarliest(lines: seq<string>, pattern: seq<string>, start: nat, eof: bool, i: nat)
    requires pattern != []
    ensures Seek(lines, pattern, start, eof) == Some(i) <==>
            |pattern| <= |lines|
            && exists pass :: StrictestEarliest(pass, lines, pattern, SearchStart(lines, pattern, start, eof), i)
  {
    if |pattern| <= |lines| {
      var from := SearchStart(lines, pattern, start, eof);
      var r := FirstPass(Exact, lines, pattern, from);
      FirstPassIsStrictest(Exact, lines, pattern, from);
      forall pass | StrictestEarliest(pass, lines, pattern, from, i)
        ensures r == Some(i)
      {
        assert pass.Matches(lines, pattern, i);
        assert !NoMatchFrom(pass, lines, pattern, from);
        var p :| StrictestEarliest(p, lines, pattern, from, r.value);
        StrictestEarliestIsUnique(p, pass, lines, pattern, from, r.value, i);
      }
    }
  }

  /** A non-empty pattern is not found exactly when no pass, not even the laxest one, matches
      anywhere in the range. */
  lemma NotFoundMeansNoMatch(lines: seq<string>, pattern: seq<string>, start: nat, eof: bool)
    requires pattern != []
    ensures var from := SearchStart(lines, pattern, start, eof);
            && (Seek(lines, pattern, start, eof).None? <==> NoPassMatches(lines, pattern, from))
            && (Seek(lines, pattern, start, eof).None? <==> NoMatchFrom(IgnorePunctuation, lines, pattern, from))
  {
    var from := SearchStart(lines, pattern, start, eof);
    if |pattern| > |lines| {
      assert NoMatchFrom(IgnorePunctuation, lines, pattern, from);
      NoMatchIsNested(lines, pattern, from);
    } else {
      FirstPassIsStrictest(Exact, lines, pattern, from);
      if Seek(lines, pattern, start, eof).Some? {
        var i := Seek(lines, pattern, start, eof).value;
        var pass :| StrictestEarliest(pass, lines, pattern, from, i);
        PassesAreNested(pass, IgnorePunctuation, lines, pattern, i);
      } else {
        assert NoPassMatches(lines, pattern, from);
      }
    }
  }

  /** What the rest of the patch engine needs: a match is in bounds, agrees with the pattern up to
      whitespace and punctuation, and lies inside the searched range. */
  lemma SeekInBounds(lines: seq<string>, pattern: seq<string>, start: nat, eof: bool)
    requires Seek(lines, pattern, start, eof).Some?
    requires pattern != []
    ensures var i := Seek(lines, pattern, start, eof).value;
            && i + |pattern| <= |lines|
            && SearchStart(lines, pattern, start, eof) <= i
            && IgnorePunctuation.Matches(lines, pattern, i)
  {
    var from := SearchStart(lines, pattern, start, eof);
    var i := Seek(lines, pattern, start, eof).value;
    FoundIsStrictestThenEarliest(lines, pattern, start, eof, i);
    var pass :| StrictestEarliest(pass, lines, pattern, from, i);
    PassesAreNested(pass, IgnorePunctuation, lines, pattern, i);
  }

  /** The end-of-file flag replaces the search range, it does not extend it: the only index ever
      found is the last possible one, also when that lies before `start`. */
  lemma EndOfFileLooksOnlyAtTheEnd(lines: seq<string>, pattern: seq<string>, start: nat)
    requires pattern != []
    ensures Seek(lines, pattern, start, true) ==
            if |pattern| <= |lines| && IgnorePunctuation.Matches(lines, pattern, |lines| - |pattern|)
            then Some(|lines| - |pattern|) else None
  {
    hide Seek, Pass.View;
    NotFoundMeansNoMatch(lines, pattern, start, true);
    if Seek(lines, pattern, start, true).Some? {
      SeekInBounds(lines, pattern, start, true);
    }
  }

  /** The documentation promises a fallback to `start`; this pattern is there and is not found. */
  lemma EndOfFileDoesNotFallBack()
    ensures Exact.Matches(["a", "b"], ["a"], 0)
    ensures Seek(["a", "b"], ["a"], 0, true).None?
  {
    EndOfFileLooksOnlyAtTheEnd(["a", "b"], ["a"], 0);
    assert Trim("b") == "b" && Trim("a") == "a" by {
      TrimOfTrimmed("a");
      TrimOfTrimmed("b");
    }
    assert Normalise("b")[0] == 'b' && Normalise("a")[0] == 'a';
    assert IgnorePunctuation.View(["a", "b"][1 + 0]) != IgnorePunctuation.View(["a"][0]);
  }
}
