/** The string operations of Rust's standard library that the patch engine uses:
    `trim`, `trim_end`, `strip_prefix`, `split('\n')`, `lines` and `join`. */
module Text {
  import opened Wrappers

  // ---------- Trimming ----------

  /** The code points with the Unicode property White_Space, which `char::is_whitespace` tests. */
  predicate IsWhitespace(c: char) {
    || '\t' <= c <= '\r'
    || c == ' '
    || c == '\U{0085}'
    || c == '\U{00A0}'
    || c == '\U{1680}'
    || '\U{2000}' <= c <= '\U{200A}'
    || c == '\U{2028}'
    || c == '\U{2029}'
    || c == '\U{202F}'
    || c == '\U{205F}'
    || c == '\U{3000}'
  }

  /** The code points of that property, one by one. */
  const WHITE_SPACE: set<char> :=
    {'\U{0009}', '\U{000A}', '\U{000B}', '\U{000C}', '\U{000D}', '\U{0020}', '\U{0085}', '\U{00A0}', '\U{1680}',
     '\U{2000}', '\U{2001}', '\U{2002}', '\U{2003}', '\U{2004}', '\U{2005}', '\U{2006}', '\U{2007}', '\U{2008}',
     '\U{2009}', '\U{200A}', '\U{2028}', '\U{2029}', '\U{202F}', '\U{205F}', '\U{3000}'}

  lemma WhitespaceIs(c: char)
    ensures IsWhitespace(c) <==> c in WHITE_SPACE
  {
  }

  function TrimStart(s: string): (t: string) {
    if s != [] && IsWhitespace(s[0]) then TrimStart(s[1..]) else s
  }

  function TrimEnd(s: string): (t: string) {
    if s != [] && IsWhitespace(s[|s| - 1]) then TrimEnd(s[..|s| - 1]) else s
  }

  function Trim(s: string): (t: string) {
    TrimStart(TrimEnd(s))
  }

  predicate AllWhitespace(s: string) {
    forall i :: 0 <= i < |s| ==> IsWhitespace(s[i])
  }

  /** Neither end of `s` is whitespace, so trimming leaves it alone. */
  predicate Trimmed(s: string) {
    s == [] || (!IsWhitespace(s[0]) && !IsWhitespace(s[|s| - 1]))
  }

  lemma {:induction false} TrimStartSplits(s: string) returns (lead: string)
    ensures s == lead + TrimStart(s) && AllWhitespace(lead)
    ensures TrimStart(s) == [] || !IsWhitespace(TrimStart(s)[0])
  {
    if s != [] && IsWhitespace(s[0]) {
      var rest := TrimStartSplits(s[1..]);
      lead := [s[0]] + rest;
      assert s == [s[0]] + s[1..];
    } else {
      lead := [];
    }
  }

  lemma {:induction false} TrimEndSplits(s: string) returns (trail: string)
    ensures s == TrimEnd(s) + trail && AllWhitespace(trail)
    ensures TrimEnd(s) == [] || !IsWhitespace(TrimEnd(s)[|TrimEnd(s)| - 1])
  {
    if s != [] && IsWhitespace(s[|s| - 1]) {
      var rest := TrimEndSplits(s[..|s| - 1]);
      trail := rest + [s[|s| - 1]];
      assert s == s[..|s| - 1] + [s[|s| - 1]];
    } else {
      trail := [];
    }
  }

  /** `trim` removes a whitespace prefix and a whitespace suffix and stops at non-whitespace. */
  lemma TrimSplits(s: string) returns (lead: string, trail: string)
    ensures s == lead + Trim(s) + trail
    ensures AllWhitespace(lead) && AllWhitespace(trail) && Trimmed(Trim(s))
  {
    trail := TrimEndSplits(s);
    lead := TrimStartSplits(TrimEnd(s));
    var t := Trim(s);
    if t != [] {
      var e := TrimEnd(s);
      assert e == lead + t;
      assert e[|e| - 1] == t[|t| - 1];
    }
  }

  lemma TrimOfTrimmed(s: string)
    requires Trimmed(s)
    ensures Trim(s) == s && TrimEnd(s) == s
  {
  }

  lemma {:induction false} TrimStartSkips(lead: string, s: string)
    requires AllWhitespace(lead)
    ensures TrimStart(lead + s) == TrimStart(s)
  {
    if lead == [] {
      assert lead + s == s;
    } else {
      assert (lead + s)[1..] == lead[1..] + s;
      TrimStartSkips(lead[1..], s);
    }
  }

  lemma {:induction false} TrimEndSkips(s: string, trail: string)
    requires AllWhitespace(trail)
    ensures TrimEnd(s + trail) == TrimEnd(s)
  {
    if trail == [] {
      assert s + trail == s;
    } else {
      var n := |trail| - 1;
      assert (s + trail)[..|s + trail| - 1] == s + trail[..n];
      TrimEndSkips(s, trail[..n]);
    }
  }

  /** Whitespace around a trimmed text is what `trim` removes. */
  lemma TrimPadded(lead: string, core: string, trail: string)
    requires AllWhitespace(lead) && AllWhitespace(trail) && Trimmed(core)
    ensures Trim(lead + core + trail) == core
  {
    TrimEndSkips(lead + core, trail);
    if core == [] {
      assert lead + core == [] + lead;
      TrimEndSkips([], lead);
    } else {
      assert (lead + core)[|lead + core| - 1] == core[|core| - 1];
      TrimStartSkips(lead, core);
    }
  }

  predicate AllWhiteSpace(s: string) {
    forall i :: 0 <= i < |s| ==> s[i] in WHITE_SPACE
  }

  lemma AllWhitespaceIff(s: string)
    ensures AllWhitespace(s) <==> AllWhiteSpace(s)
  {
    forall i | 0 <= i < |s|
      ensures IsWhitespace(s[i]) <==> s[i] in WHITE_SPACE
    {
      WhitespaceIs(s[i]);
    }
    hide IsWhitespace;
  }

  /** Trimming leaves the one text that does not begin or end with one of these code points and has nothing else
      around it. */
  lemma TrimIff(s: string, t: string)
    ensures Trim(s) == t <==>
            && (t == "" || (t[0] !in WHITE_SPACE && t[|t| - 1] !in WHITE_SPACE))
            && exists lead, trail :: AllWhiteSpace(lead) && AllWhiteSpace(trail) && s == lead + t + trail
  {
    if t != "" {
      WhitespaceIs(t[0]);
      WhitespaceIs(t[|t| - 1]);
    }
    hide IsWhitespace, Trim;
    var before, after := TrimSplits(s);
    AllWhitespaceIff(before);
    AllWhitespaceIff(after);
    if t == "" || (t[0] !in WHITE_SPACE && t[|t| - 1] !in WHITE_SPACE) {
      forall lead, trail | AllWhiteSpace(lead) && AllWhiteSpace(trail) && s == lead + t + trail
        ensures Trim(s) == t
      {
        AllWhitespaceIff(lead);
        AllWhitespaceIff(trail);
        TrimPadded(lead, t, trail);
      }
    }
  }

  lemma TrimAllWhitespace(s: string)
    requires AllWhitespace(s)
    ensures Trim(s) == []
  {
    assert s + [] + [] == s;
    TrimPadded(s, [], []);
  }

  // ---------- Prefixes ----------

  /** `str::strip_prefix`. */
  function StripPrefix(s: string, prefix: string): (r: Option<string>) {
    if prefix <= s then Some(s[|prefix|..]) else None
  }

  predicate EndsWith(s: string, suffix: string) {
    |suffix| <= |s| && s[|s| - |suffix|..] == suffix
  }

  // ---------- Splitting and joining ----------

  /** The part of `s` before the first '/'. */
  function FirstSegment(s: string): string {
    if s == "" || s[0] == '/' then "" else [s[0]] + FirstSegment(s[1..])
  }

  /** `s.split(c)`: the pieces between occurrences of `c`, always at least one. */
  function Split(s: string, c: char): (pieces: seq<string>)
    ensures |pieces| >= 1
  {
    if s == [] then [[]]
    else
      var rest := Split(s[1..], c);
      if s[0] == c then [[]] + rest else [[s[0]] + rest[0]] + rest[1..]
  }

  /** `pieces.join(separator)`. */
  function Join(pieces: seq<string>, separator: string): (s: string) {
    if |pieces| == 0 then []
    else if |pieces| == 1 then pieces[0]
    else pieces[0] + separator + Join(pieces[1..], separator)
  }

  lemma {:induction false} SplitAtSeparator(head: string, c: char, tail: string)
    requires c !in head
    ensures Split(head + [c] + tail, c) == [head] + Split(tail, c)
  {
    var s := head + [c] + tail;
    if head == [] {
      assert s[1..] == tail;
    } else {
      assert s[1..] == head[1..] + [c] + tail;
      SplitAtSeparator(head[1..], c, tail);
      assert [head[0]] + head[1..] == head;
    }
  }

  lemma {:induction false} SplitWithoutSeparator(s: string, c: char)
    requires c !in s
    ensures Split(s, c) == [s]
  {
    if s == [] {
    } else {
      SplitWithoutSeparator(s[1..], c);
      assert [s[0]] + s[1..] == s;
    }
  }

  /** Splitting undoes joining when no piece contains the separator. */
  lemma {:induction false} SplitJoin(pieces: seq<string>, c: char)
    requires |pieces| >= 1
    requires forall p :: p in pieces ==> c !in p
    ensures Split(Join(pieces, [c]), c) == pieces
  {
    if |pieces| == 1 {
      SplitWithoutSeparator(pieces[0], c);
    } else {
      SplitAtSeparator(pieces[0], c, Join(pieces[1..], [c]));
      SplitJoin(pieces[1..], c);
    }
  }

  /** Concatenation may be regrouped. */
  lemma Regroup(a: string, b: string, c: string, d: string)
    ensures a + (b + c + d) == a + b + c + d
  {
  }

  lemma JoinLonger(first: char, pieces: seq<string>, c: char)
    requires |pieces| >= 1
    ensures Join([[first] + pieces[0]] + pieces[1..], [c]) == [first] + Join(pieces, [c])
  {
    var longer := [[first] + pieces[0]] + pieces[1..];
    assert longer[1..] == pieces[1..] && longer[0] == [first] + pieces[0];
    if |pieces| > 1 {
      var rest := Join(pieces[1..], [c]);
      assert Join(longer, [c]) == [first] + pieces[0] + [c] + rest;
      assert Join(pieces, [c]) == pieces[0] + [c] + rest;
      hide Join;
      Regroup([first], pieces[0], [c], rest);
    }
  }

  /** Joining undoes splitting, and no piece contains the separator. */
  lemma {:induction false} JoinSplit(s: string, c: char)
    ensures Join(Split(s, c), [c]) == s
    ensures forall p :: p in Split(s, c) ==> c !in p
  {
    if s == [] {
    } else {
      JoinSplit(s[1..], c);
      var rest := Split(s[1..], c);
      if s[0] == c {
        assert ([[]] + rest)[1..] == rest;
        assert Join(Split(s, c), [c]) == [] + [c] + s[1..];
      } else {
        assert Split(s, c) == [[s[0]] + rest[0]] + rest[1..];
        hide Split;
        JoinLonger(s[0], rest, c);
        assert s == [s[0]] + s[1..];
      }
    }
  }

  /** Putting the last piece aside and joining splits the text in two. */
  lemma {:induction false} JoinSnoc(pieces: seq<string>, last: string, c: char)
    requires |pieces| >= 1
    ensures Join(pieces + [last], [c]) == Join(pieces, [c]) + [c] + last
  {
    if |pieces| == 1 {
      assert (pieces + [last])[1..] == [last];
    } else {
      assert (pieces + [last])[1..] == pieces[1..] + [last];
      JoinSnoc(pieces[1..], last, c);
    }
  }

  /** A line as `str::lines` yields it: without the carriage return of a "\r\n" ending. */
  function DropCarriageReturn(line: string): string {
    if line != [] && line[|line| - 1] == '\r' then line[..|line| - 1] else line
  }

  /** Every piece but the last ended in "\n"; the last one is a line only when it is not empty. */
  function LinesOfPieces(pieces: seq<string>): (lines: seq<string>)
    requires |pieces| >= 1
  {
    if |pieces| == 1 then (if pieces[0] == [] then [] else [pieces[0]])
    else [DropCarriageReturn(pieces[0])] + LinesOfPieces(pieces[1..])
  }

  /** `s.lines()`: line endings are "\n" or "\r\n", and a final line ending starts no new line. */
  function Lines(s: string): (lines: seq<string>) {
    LinesOfPieces(Split(s, '\n'))
  }

  /** A line that survives being joined with "\n" and read back by `lines`. */
  predicate PlainLine(line: string) {
    '\n' !in line && (line == [] || line[|line| - 1] != '\r')
  }

  lemma {:induction false} LinesOfPlainPieces(pieces: seq<string>)
    requires forall p :: p in pieces ==> PlainLine(p)
    requires |pieces| >= 1 && pieces[|pieces| - 1] != []
    ensures LinesOfPieces(pieces) == pieces
  {
    if |pieces| > 1 {
      assert pieces[0] in pieces;
      LinesOfPlainPieces(pieces[1..]);
    }
  }

  /** Reading back lines that were joined with "\n". */
  lemma LinesOfJoin(lines: seq<string>)
    requires forall l :: l in lines ==> PlainLine(l)
    requires |lines| >= 1 && lines[|lines| - 1] != []
    ensures Lines(Join(lines, "\n")) == lines
  {
    SplitJoin(lines, '\n');
    LinesOfPlainPieces(lines);
  }
}
