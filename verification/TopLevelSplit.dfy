/** Splitting generated TypeScript at top-level delimiters: delimiters inside brackets or string
    literals do not count. Filtering a union and splitting it again gives back what was kept. */
module TopLevelSplit {
  import opened Wrappers
  import opened Text

  // ---------- Scanning ----------

  /** How deep each kind of bracket is nested, the quote of the string literal being scanned, and
      whether a backslash came just before. */
  datatype Scan = Scan(brace: nat, bracket: nat, paren: nat, angle: nat, quote: Option<char>, escape: bool)

  const START := Scan(0, 0, 0, 0, None, false)

  function Less(n: nat): nat {
    if n == 0 then 0 else n - 1
  }

  function Observed(st: Scan, ch: char): Scan {
    if st.quote.Some? then
      if st.escape then st.(escape := false)
      else if ch == '\\' then st.(escape := true)
      else if ch == st.quote.value then st.(quote := None)
      else st
    else if ch == '"' || ch == '\'' then st.(quote := Some(ch))
    else if ch == '{' then st.(brace := st.brace + 1)
    else if ch == '}' then st.(brace := Less(st.brace))
    else if ch == '[' then st.(bracket := st.bracket + 1)
    else if ch == ']' then st.(bracket := Less(st.bracket))
    else if ch == '(' then st.(paren := st.paren + 1)
    else if ch == ')' then st.(paren := Less(st.paren))
    else if ch == '<' then st.(angle := st.angle + 1)
    else if ch == '>' then st.(angle := Less(st.angle))
    else st
  }

  function ScanAll(st: Scan, s: string): Scan
    decreases |s|
  {
    if s == "" then st else ScanAll(Observed(st, s[0]), s[1..])
  }

  predicate TopLevel(st: Scan) {
    st.brace == 0 && st.bracket == 0 && st.paren == 0 && st.angle == 0
  }

  predicate Cuts(st: Scan, ch: char, delimiters: set<char>) {
    st.quote.None? && TopLevel(st) && ch in delimiters
  }

  /** The scanner of the source, updated in place. */
  class ScanState {
    var brace: nat
    var bracket: nat
    var paren: nat
    var angle: nat
    var stringDelim: Option<char>
    var escape: bool

    function View(): Scan
      reads this
    {
      Scan(brace, bracket, paren, angle, stringDelim, escape)
    }

    constructor ()
      ensures View() == START
    {
      brace, bracket, paren, angle, stringDelim, escape := 0, 0, 0, 0, None, false;
    }

    method Observe(ch: char)
      modifies this
      ensures View() == Observed(old(View()), ch)
    {
      if stringDelim.Some? {
        if escape {
          escape := false;
          return;
        }
        if ch == '\\' {
          escape := true;
          return;
        }
        if ch == stringDelim.value {
          stringDelim := None;
        }
        return;
      }
      match ch {
        case '"' => stringDelim := Some(ch);
        case '\'' => stringDelim := Some(ch);
        case '{' => brace := brace + 1;
        case '}' => brace := Less(brace);
        case '[' => bracket := bracket + 1;
        case ']' => bracket := Less(bracket);
        case '(' => paren := paren + 1;
        case ')' => paren := Less(paren);
        case '<' => angle := angle + 1;
        case '>' => if angle > 0 { angle := angle - 1; }
        case _ =>
      }
    }
  }

  // ---------- Splitting ----------

  /** A part is trimmed, and dropped when nothing is left of it. */
  function Emit(part: string): seq<string> {
    if Trim(part) == "" then [] else [Trim(part)]
  }

  /** The parts of `current + rest`, where `current` has been scanned already and `st` is the state
      after it. */
  function SplitFrom(st: Scan, current: string, rest: string, delimiters: set<char>): (parts: seq<string>)
    decreases |rest|
  {
    if rest == "" then Emit(current)
    else if Cuts(st, rest[0], delimiters) then
      Emit(current) + SplitFrom(Observed(st, rest[0]), "", rest[1..], delimiters)
    else SplitFrom(Observed(st, rest[0]), current + [rest[0]], rest[1..], delimiters)
  }

  function SplitTopLevel(input: string, delimiters: set<char>): (parts: seq<string>) {
    SplitFrom(START, "", input, delimiters)
  }

  /** Pushing a part, unless nothing is left of it. */
  method PushPart(parts: seq<string>, raw: string) returns (pushed: seq<string>)
    ensures pushed == parts + Emit(raw)
  {
    pushed := parts;
    var part := Trim(raw);
    if part != "" {
      pushed := pushed + [part];
    }
  }

  lemma SplitStep(st: Scan, input: string, start: nat, index: nat, delimiters: set<char>)
    requires start <= index < |input|
    ensures SplitFrom(st, input[start..index], input[index..], delimiters) ==
            if Cuts(st, input[index], delimiters) then
              Emit(input[start..index])
              + SplitFrom(Observed(st, input[index]), input[index + 1..index + 1], input[index + 1..], delimiters)
            else SplitFrom(Observed(st, input[index]), input[start..index + 1], input[index + 1..], delimiters)
  {
    assert input[index..][1..] == input[index + 1..];
    assert input[start..index] + [input[index]] == input[start..index + 1];
    assert input[index + 1..index + 1] == "";
  }

  method SplitTopLevelMulti(input: string, delimiters: set<char>) returns (parts: seq<string>)
    ensures parts == SplitTopLevel(input, delimiters)
  {
    hide Observed, Emit, Cuts;
    var state := new ScanState();
    var start := 0;
    parts := [];
    var index := 0;
    assert input[0..] == input && input[0..0] == "";
    while index < |input|
      invariant 0 <= start <= index <= |input|
      invariant fresh(state)
      invariant parts + SplitFrom(state.View(), input[start..index], input[index..], delimiters) ==
                SplitTopLevel(input, delimiters)
    {
      hide SplitFrom;
      var ch := input[index];
      ghost var before := state.View();
      SplitStep(before, input, start, index, delimiters);
      if Cuts(state.View(), ch, delimiters) {
        parts := PushPart(parts, input[start..index]);
        start := index + 1;
      }
      state.Observe(ch);
      index := index + 1;
    }
    assert input[index..] == "" && input[start..index] == input[start..];
    parts := PushPart(parts, input[start..]);
  }

  // ---------- Parts in context and on their own ----------

  /** String literals are quoted, and outside of them no backslash is pending. */
  predicate Sane(st: Scan) {
    if st.quote.Some? then st.quote.value == '"' || st.quote.value == '\'' else !st.escape
  }

  lemma {:induction false} ScanAllSane(st: Scan, s: string)
    requires Sane(st)
    ensures Sane(ScanAll(st, s))
    decreases |s|
  {
    if s == "" {
    } else {
      ScanAllSane(Observed(st, s[0]), s[1..]);
    }
  }

  /** Scanning `s` from `st` meets no delimiter that counts. */
  predicate Uncut(st: Scan, s: string, delimiters: set<char>)
    decreases |s|
  {
    s == "" || (!Cuts(st, s[0], delimiters) && Uncut(Observed(st, s[0]), s[1..], delimiters))
  }

  lemma {:induction false} ScanConcat(st: Scan, a: string, b: string, delimiters: set<char>)
    ensures ScanAll(st, a + b) == ScanAll(ScanAll(st, a), b)
    ensures Uncut(st, a + b, delimiters) <==> Uncut(st, a, delimiters) && Uncut(ScanAll(st, a), b, delimiters)
    decreases |a|
  {
    if a == "" {
      assert a + b == b;
    } else {
      assert (a + b)[1..] == a[1..] + b;
      ScanConcat(Observed(st, a[0]), a[1..], b, delimiters);
    }
  }

  lemma WhitespaceIsInert(st: Scan, c: char)
    requires IsWhitespace(c) && Sane(st)
    ensures st.quote.None? ==> Observed(st, c) == st
    ensures st.quote.Some? ==> Observed(st, c).quote.Some?
  {
  }

  lemma {:induction false} WhitespaceKeepsStart(s: string)
    requires AllWhitespace(s)
    ensures ScanAll(START, s) == START
  {
    if s == "" {
    } else {
      WhitespaceIsInert(START, s[0]);
      WhitespaceKeepsStart(s[1..]);
    }
  }

  /** Trailing whitespace cannot bring the scanner back to the top level. */
  lemma {:induction false} WhitespaceReachesStart(st: Scan, s: string)
    requires Sane(st) && AllWhitespace(s) && ScanAll(st, s) == START
    ensures st == START
    decreases |s|
  {
    if s == "" {
    } else {
      WhitespaceIsInert(st, s[0]);
      WhitespaceReachesStart(Observed(st, s[0]), s[1..]);
    }
  }

  /** Scanning the trimmed part from the start behaves as it did in its context. */
  lemma TrimmedBehavesAlike(part: string, delimiters: set<char>)
    requires Uncut(START, part, delimiters)
    ensures Uncut(START, Trim(part), delimiters)
    ensures ScanAll(START, part) == START ==> ScanAll(START, Trim(part)) == START
  {
    var lead, trail := TrimSplits(part);
    var core := Trim(part);
    assert part == lead + (core + trail);
    ScanConcat(START, lead, core + trail, delimiters);
    WhitespaceKeepsStart(lead);
    ScanConcat(START, core, trail, delimiters);
    ScanAllSane(START, core);
    if ScanAll(START, part) == START {
      WhitespaceReachesStart(ScanAll(START, core), trail);
    }
  }

  /** A part that splitting leaves alone; a closed one also leaves the scanner at the top level. */
  predicate IsPart(part: string, delimiters: set<char>) {
    part != "" && Trimmed(part) && Uncut(START, part, delimiters)
  }

  predicate IsClosed(part: string) {
    ScanAll(START, part) == START
  }

  /** Parts that can be joined again: each is one, and only the last may be left open. */
  predicate Rejoinable(parts: seq<string>, delimiters: set<char>) {
    && (forall i :: 0 <= i < |parts| ==> IsPart(parts[i], delimiters))
    && (forall i :: 0 <= i < |parts| - 1 ==> IsClosed(parts[i]))
  }

  /** Characters that do not change the state at the top level. */
  predicate Neutral(c: char) {
    Observed(START, c) == START
  }

  predicate AllNeutral(delimiters: set<char>) {
    forall d :: d in delimiters ==> Neutral(d)
  }

  lemma EmitPart(part: string, delimiters: set<char>)
    requires Uncut(START, part, delimiters)
    ensures Emit(part) != [] ==> IsPart(Emit(part)[0], delimiters)
    ensures Emit(part) != [] && ScanAll(START, part) == START ==> IsClosed(Emit(part)[0])
  {
    TrimmedBehavesAlike(part, delimiters);
    var _, _ := TrimSplits(part);
  }

  lemma CutsAtStart(st: Scan, ch: char, delimiters: set<char>)
    requires Sane(st) && Cuts(st, ch, delimiters)
    ensures st == START
  {
  }

  lemma RejoinablePrepend(part: string, rest: seq<string>, delimiters: set<char>)
    requires Rejoinable(rest, delimiters)
    requires IsPart(part, delimiters) && IsClosed(part)
    ensures Rejoinable([part] + rest, delimiters)
  {
    hide IsPart, IsClosed;
    var all := [part] + rest;
    assert forall i :: 0 < i < |all| ==> all[i] == rest[i - 1];
  }

  lemma ScanOne(st: Scan, ch: char, delimiters: set<char>)
    ensures ScanAll(st, [ch]) == Observed(st, ch)
    ensures Uncut(st, [ch], delimiters) <==> !Cuts(st, ch, delimiters)
  {
    assert [ch][1..] == "";
  }

  /** Splitting only ever produces parts that can be joined again. */
  lemma {:induction false} SplitFromIsRejoinable(st: Scan, current: string, rest: string, delimiters: set<char>)
    requires AllNeutral(delimiters)
    requires Uncut(START, current, delimiters) && ScanAll(START, current) == st
    ensures Rejoinable(SplitFrom(st, current, rest, delimiters), delimiters)
    decreases |rest|
  {
    hide IsPart, IsClosed, Observed, Trim;
    ScanAllSane(START, current);
    EmitPart(current, delimiters);
    if rest == "" {
    } else {
      if Cuts(st, rest[0], delimiters) {
        CutsAtStart(st, rest[0], delimiters);
        assert Neutral(rest[0]);
        SplitFromIsRejoinable(START, "", rest[1..], delimiters);
        var tail := SplitFrom(START, "", rest[1..], delimiters);
        if Emit(current) != [] {
          RejoinablePrepend(Emit(current)[0], tail, delimiters);
        } else {
          assert Emit(current) + tail == tail;
        }
      } else {
        ScanConcat(START, current, [rest[0]], delimiters);
        ScanOne(st, rest[0], delimiters);
        SplitFromIsRejoinable(Observed(st, rest[0]), current + [rest[0]], rest[1..], delimiters);
      }
    }
  }

  // ---------- Joining and splitting again ----------

  lemma {:induction false} SplitSkipsUncut(st: Scan, current: string, a: string, rest: string, delimiters: set<char>)
    requires Uncut(st, a, delimiters)
    ensures SplitFrom(st, current, a + rest, delimiters) ==
            SplitFrom(ScanAll(st, a), current + a, rest, delimiters)
    decreases |a|
  {
    if a == "" {
      assert a + rest == rest && current + a == current;
    } else {
      assert (a + rest)[1..] == a[1..] + rest;
      assert current + [a[0]] + a[1..] == current + a;
      SplitSkipsUncut(Observed(st, a[0]), current + [a[0]], a[1..], rest, delimiters);
    }
  }

  lemma EmitPadded(lead: string, part: string, trail: string, delimiters: set<char>)
    requires IsPart(part, delimiters) && AllWhitespace(lead) && AllWhitespace(trail)
    ensures Emit(lead + part + trail) == [part]
  {
    TrimPadded(lead, part, trail);
  }

  /** Cutting at a delimiter that stands between spaces. */
  lemma SplitAtSpacedDelimiter(current: string, part: string, d: char, rest: string, delimiters: set<char>)
    requires d in delimiters && ' ' !in delimiters && Neutral(d)
    requires Emit(current + " ") == [part]
    ensures SplitFrom(START, current, [' ', d, ' '] + rest, delimiters) ==
            [part] + SplitFrom(START, " ", rest, delimiters)
  {
    var tail := [' ', d, ' '] + rest;
    var next := [d, ' '] + rest;
    var last := " " + rest;
    WhitespaceIsInert(START, ' ');
    hide Observed, Trim;
    assert tail[0] == ' ' && tail[1..] == next;
    assert SplitFrom(START, current, tail, delimiters) == SplitFrom(START, current + " ", next, delimiters);
    assert next[0] == d && next[1..] == last;
    assert SplitFrom(START, current + " ", next, delimiters) == [part] + SplitFrom(START, "", last, delimiters);
    assert last[0] == ' ' && last[1..] == rest && "" + [' '] == " ";
  }

  /** What follows a part and its separator. */
  lemma SplitAfterSeparator(lead: string, part: string, d: char, rest: string, delimiters: set<char>)
    requires AllNeutral(delimiters) && d in delimiters && ' ' !in delimiters
    requires IsPart(part, delimiters) && IsClosed(part) && AllWhitespace(lead)
    ensures SplitFrom(START, lead, part + ([' ', d, ' '] + rest), delimiters) ==
            [part] + SplitFrom(START, " ", rest, delimiters)
  {
    SplitSkipsUncut(START, lead, part, [' ', d, ' '] + rest, delimiters);
    EmitPadded(lead, part, " ", delimiters);
    assert Neutral(d);
    SplitAtSpacedDelimiter(lead + part, part, d, rest, delimiters);
  }

  lemma LastPart(part: string, lead: string, delimiters: set<char>)
    requires IsPart(part, delimiters) && AllWhitespace(lead)
    ensures SplitFrom(START, lead, part, delimiters) == [part]
  {
    SplitSkipsUncut(START, lead, part, "", delimiters);
    assert part + "" == part && lead + part + "" == lead + part;
    EmitPadded(lead, part, "", delimiters);
  }

  lemma {:induction false} SplitOfJoinFrom(parts: seq<string>, d: char, delimiters: set<char>, lead: string)
    requires AllNeutral(delimiters) && d in delimiters && ' ' !in delimiters
    requires Rejoinable(parts, delimiters) && AllWhitespace(lead)
    ensures SplitFrom(START, lead, Join(parts, [' ', d, ' ']), delimiters) == parts
    decreases |parts|
  {
    hide Observed, IsPart, IsClosed, Trim, Uncut;
    if parts == [] {
      TrimAllWhitespace(lead);
    } else if |parts| == 1 {
      assert IsPart(parts[0], delimiters);
      LastPart(parts[0], lead, delimiters);
      assert parts == [parts[0]];
    } else {
      var rest := Join(parts[1..], [' ', d, ' ']);
      assert IsPart(parts[0], delimiters) && IsClosed(parts[0]);
      assert forall i :: 0 <= i < |parts| - 1 ==> parts[1..][i] == parts[i + 1];
      assert parts[0] + [' ', d, ' '] + rest == parts[0] + ([' ', d, ' '] + rest);
      SplitAfterSeparator(lead, parts[0], d, rest, delimiters);
      SplitOfJoinFrom(parts[1..], d, delimiters, " ");
    }
  }

  // ---------- Filtering a union ----------

  /** The arms that the filter keeps, in order. */
  function KeepArms(arms: seq<string>, dropped: string -> bool): seq<string> {
    if arms == [] then []
    else (if dropped(arms[0]) then [] else [arms[0]]) + KeepArms(arms[1..], dropped)
  }

  /** `kept` is what is left of the arms when some of them, by position, are taken out. */
  predicate SubList(kept: seq<string>, arms: seq<string>)
    decreases |arms|
  {
    kept == [] ||
    (arms != [] && ((kept[0] == arms[0] && SubList(kept[1..], arms[1..])) || SubList(kept, arms[1..])))
  }

  lemma {:induction false} SubListRejoinable(kept: seq<string>, arms: seq<string>, delimiters: set<char>)
    requires SubList(kept, arms) && Rejoinable(arms, delimiters)
    ensures Rejoinable(kept, delimiters)
    decreases |arms|
  {
    hide IsPart, IsClosed;
    if kept == [] {
    } else {
      var rest := arms[1..];
      assert forall i :: 0 <= i < |rest| ==> rest[i] == arms[i + 1];
      assert Rejoinable(rest, delimiters);
      if kept[0] == arms[0] && SubList(kept[1..], rest) {
        SubListRejoinable(kept[1..], rest, delimiters);
        assert IsPart(arms[0], delimiters);
        if |kept| == 1 {
          assert kept == [arms[0]];
        } else {
          assert rest != [];
          RejoinablePrepend(arms[0], kept[1..], delimiters);
          assert kept == [arms[0]] + kept[1..];
        }
      } else {
        SubListRejoinable(kept, rest, delimiters);
      }
    }
  }

  lemma {:induction false} KeepArmsIsSubList(arms: seq<string>, dropped: string -> bool)
    ensures SubList(KeepArms(arms, dropped), arms)
  {
    if arms == [] {
    } else {
      KeepArmsIsSubList(arms[1..], dropped);
      var rest := KeepArms(arms[1..], dropped);
      if dropped(arms[0]) {
        assert KeepArms(arms, dropped) == rest;
      } else {
        assert ([arms[0]] + rest)[1..] == rest;
      }
    }
  }

  lemma {:induction false} KeepArmsTwice(arms: seq<string>, dropped: string -> bool)
    ensures KeepArms(KeepArms(arms, dropped), dropped) == KeepArms(arms, dropped)
  {
    if arms == [] {
    } else {
      KeepArmsTwice(arms[1..], dropped);
      var rest := KeepArms(arms[1..], dropped);
      if dropped(arms[0]) {
        assert KeepArms(arms, dropped) == rest;
      } else {
        assert ([arms[0]] + rest)[1..] == rest;
      }
    }
  }

  const PIPE := {'|'}

  /** The body of a union after `filter_client_request_ts`. */
  function FilterUnion(body: string, dropped: string -> bool): string {
    Join(KeepArms(SplitTopLevel(body, PIPE), dropped), " | ")
  }

  lemma PipeIsNeutral()
    ensures AllNeutral(PIPE) && '|' in PIPE && ' ' !in PIPE
  {
  }

  /** For every body and every sub-list of its arms, equal arms kept apart by their positions: joining the
      sub-list and splitting again gives exactly that sub-list. */
  lemma SplitOfKeptArms(body: string, kept: seq<string>)
    requires SubList(kept, SplitTopLevel(body, PIPE))
    ensures SplitTopLevel(Join(kept, " | "), PIPE) == kept
  {
    PipeIsNeutral();
    SplitFromIsRejoinable(START, "", body, PIPE);
    SubListRejoinable(kept, SplitTopLevel(body, PIPE), PIPE);
    hide SubList, Rejoinable, SplitFrom;
    SplitOfJoinFrom(kept, '|', PIPE, "");
    assert [' ', '|', ' '] == " | ";
  }

  /** In particular for every filter: splitting the filtered union gives exactly the kept arms, so filtering
      a second time changes nothing. */
  lemma FilterThenSplit(body: string, dropped: string -> bool)
    ensures SplitTopLevel(FilterUnion(body, dropped), PIPE) == KeepArms(SplitTopLevel(body, PIPE), dropped)
    ensures FilterUnion(FilterUnion(body, dropped), dropped) == FilterUnion(body, dropped)
  {
    var arms := SplitTopLevel(body, PIPE);
    KeepArmsIsSubList(arms, dropped);
    SplitOfKeptArms(body, KeepArms(arms, dropped));
    KeepArmsTwice(arms, dropped);
  }
}
