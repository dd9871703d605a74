/** What the allocator makes of what it is given: scopes as users write them, names with other characters in them,
    and which scope each task ends up with. */
module ScopeForms {
  import opened Wrappers
  import opened Text
  import opened Scopes
  import opened ScopeAllocator

  // ---------- Stripping ----------

  predicate All(s: string, drop: char -> bool) {
    forall i :: 0 <= i < |s| ==> drop(s[i])
  }

  predicate EndsKept(s: string, drop: char -> bool) {
    s != "" && !drop(s[0]) && !drop(s[|s| - 1])
  }

  lemma {:induction false} StripRightSkips(s: string, trail: string, drop: char -> bool)
    requires All(trail, drop)
    ensures StripRight(s + trail, drop) == StripRight(s, drop)
  {
    if trail == "" {
      assert s + trail == s;
    } else {
      var n := |trail| - 1;
      assert (s + trail)[..|s + trail| - 1] == s + trail[..n];
      StripRightSkips(s, trail[..n], drop);
    }
  }

  lemma {:induction false} StripLeftSkips(lead: string, s: string, drop: char -> bool)
    requires All(lead, drop)
    ensures StripLeft(lead + s, drop) == StripLeft(s, drop)
  {
    if lead == "" {
      assert lead + s == s;
    } else {
      assert (lead + s)[1..] == lead[1..] + s;
      StripLeftSkips(lead[1..], s, drop);
    }
  }

  lemma StripAround(lead: string, core: string, trail: string, drop: char -> bool)
    requires All(lead, drop) && All(trail, drop) && EndsKept(core, drop)
    ensures Strip(lead + core + trail, drop) == core
  {
    StripRightSkips(lead + core, trail, drop);
    assert (lead + core)[|lead + core| - 1] == core[|core| - 1];
    StripLeftSkips(lead, core, drop);
  }

  lemma {:induction false} StripRightKeeps(kept: string, rest: string, drop: char -> bool)
    requires kept != "" && !drop(kept[|kept| - 1])
    ensures StripRight(kept + rest, drop) == kept + StripRight(rest, drop)
    decreases |rest|
  {
    if rest == "" {
      assert kept + rest == kept;
    } else if drop(rest[|rest| - 1]) {
      var n := |rest| - 1;
      assert (kept + rest)[..|kept + rest| - 1] == kept + rest[..n];
      StripRightKeeps(kept, rest[..n], drop);
    }
  }

  lemma StripLeftStops(s: string, drop: char -> bool)
    requires s != "" && !drop(s[0])
    ensures StripLeft(s, drop) == s
  {
  }

  lemma {:induction false} StripAll(s: string, drop: char -> bool)
    requires All(s, drop)
    ensures Strip(s, drop) == ""
  {
    StripRightSkips("", s, drop);
    assert "" + s == s;
  }

  // ---------- Scopes as they are written ----------

  predicate IsAnySlash(c: char) {
    c == '/' || c == '\\'
  }

  const IS_ANY_SLASH: char -> bool := c => IsAnySlash(c)

  lemma {:induction false} ForwardSlashesConcat(a: string, b: string)
    ensures ForwardSlashes(a + b) == ForwardSlashes(a) + ForwardSlashes(b)
  {
    if a == "" {
      assert a + b == b;
    } else {
      assert (a + b)[1..] == a[1..] + b;
      ForwardSlashesConcat(a[1..], b);
    }
  }

  lemma {:induction false} ForwardSlashesAt(s: string)
    ensures |ForwardSlashes(s)| == |s|
    ensures forall i :: 0 <= i < |s| ==> ForwardSlashes(s)[i] == if s[i] == '\\' then '/' else s[i]
  {
    if s == "" {
    } else {
      ForwardSlashesAt(s[1..]);
    }
  }

  /** Nothing but Unicode white space and the four separators that Python counts to it. */
  predicate Blank(s: string) {
    forall i :: 0 <= i < |s| ==> IsWhitespace(s[i]) || s[i] in {'\U{001C}', '\U{001D}', '\U{001E}', '\U{001F}'}
  }

  lemma BlankIsSpace(s: string)
    requires Blank(s)
    ensures All(s, IS_SPACE)
  {
    forall i | 0 <= i < |s|
      ensures IS_SPACE(s[i])
    {
      SpaceIs(s[i]);
    }
  }

  /** A scope as it may be written: with whitespace around it, slashes of both kinds at its ends, and backslashes for
      the slashes inside it. */
  ghost predicate Writes(written: string, scope: string) {
    exists lead, before, body, after, trail ::
      && Blank(lead) && All(before, IS_ANY_SLASH) && All(after, IS_ANY_SLASH) && Blank(trail)
      && ForwardSlashes(body) == scope
      && written == lead + (before + body + after) + trail
  }

  lemma SlashIsNoSpace(c: char)
    requires IsAnySlash(c)
    ensures !IsSpace(c)
  {
  }

  lemma EndsOfWritten(before: string, body: string, after: string)
    requires All(before, IS_ANY_SLASH) && All(after, IS_ANY_SLASH) && PlainScope(ForwardSlashes(body))
    ensures EndsKept(before + body + after, IS_SPACE)
  {
    ForwardSlashesAt(body);
    var inner := before + body + after;
    var scope := ForwardSlashes(body);
    assert IsPlainEnd(scope[0]) && IsPlainEnd(scope[|scope| - 1]);
    assert !IsSpace(body[0]) && !IsSpace(body[|body| - 1]);
    assert inner[0] == if before != "" then before[0] else body[0];
    assert inner[|inner| - 1] == if after != "" then after[|after| - 1] else body[|body| - 1];
    if before != "" {
      assert IS_ANY_SLASH(before[0]);
      SlashIsNoSpace(before[0]);
    }
    if after != "" {
      assert IS_ANY_SLASH(after[|after| - 1]);
      SlashIsNoSpace(after[|after| - 1]);
    }
  }

  lemma SlashesBecomeForward(s: string)
    requires All(s, IS_ANY_SLASH)
    ensures All(ForwardSlashes(s), IS_SLASH)
  {
    ForwardSlashesAt(s);
    forall i | 0 <= i < |s|
      ensures ForwardSlashes(s)[i] == '/'
    {
      assert IS_ANY_SLASH(s[i]);
    }
  }

  /** Whatever way a plain scope is written, it is normalized to itself. */
  lemma WrittenScope(written: string, scope: string)
    requires PlainScope(scope) && Writes(written, scope)
    ensures NormalizeScope(written) == scope
  {
    hide PlainScope, Strip, ForwardSlashes;
    var lead, before, body, after, trail :|
      && Blank(lead) && All(before, IS_ANY_SLASH) && All(after, IS_ANY_SLASH) && Blank(trail)
      && ForwardSlashes(body) == scope
      && written == lead + (before + body + after) + trail;
    var inner := before + body + after;
    BlankIsSpace(lead);
    BlankIsSpace(trail);
    EndsOfWritten(before, body, after);
    StripAround(lead, inner, trail, IS_SPACE);
    ForwardSlashesConcat(before + body, after);
    ForwardSlashesConcat(before, body);
    SlashesBecomeForward(before);
    SlashesBecomeForward(after);
    assert ForwardSlashes(inner) == ForwardSlashes(before) + scope + ForwardSlashes(after);
    assert EndsKept(scope, IS_SLASH) && !HasGlob(scope) by { PlainEnds(scope); }
    StripAround(ForwardSlashes(before), scope, ForwardSlashes(after), IS_SLASH);
  }

  lemma PlainEnds(scope: string)
    requires PlainScope(scope)
    ensures EndsKept(scope, IS_SLASH) && EndsKept(scope, IS_SPACE) && !HasGlob(scope)
    ensures '\\' !in scope
  {
    assert forall i :: 0 <= i < |scope| ==> !IsGlob(scope[i]);
  }

  /** Slashes between whitespace are no scope. */
  lemma BlankScope(lead: string, slashes: string, trail: string)
    requires Blank(lead) && All(slashes, IS_ANY_SLASH) && Blank(trail)
    ensures NormalizeScope(lead + slashes + trail) == ""
  {
    BlankIsSpace(lead);
    BlankIsSpace(trail);
    hide Strip, ForwardSlashes, IsSpace;
    if slashes == "" {
      assert All(lead + slashes + trail, IS_SPACE);
      StripAll(lead + slashes + trail, IS_SPACE);
      assert ForwardSlashes("") == "" by { ForwardSlashesAt(""); }
      StripAll("", IS_SLASH);
    } else {
      assert IS_ANY_SLASH(slashes[0]) && IS_ANY_SLASH(slashes[|slashes| - 1]);
      SlashIsNoSpace(slashes[0]);
      SlashIsNoSpace(slashes[|slashes| - 1]);
      StripAround(lead, slashes, trail, IS_SPACE);
      SlashesBecomeForward(slashes);
      StripAll(ForwardSlashes(slashes), IS_SLASH);
    }
  }

  lemma {:induction false} BeforeGlobIs(kept: string, rest: string)
    requires !HasGlob(kept) && rest != "" && IsGlob(rest[0])
    ensures BeforeGlob(kept + rest) == kept
  {
    if kept == "" {
      assert kept + rest == rest;
    } else {
      assert (kept + rest)[1..] == kept[1..] + rest;
      assert !IsGlob(kept[0]);
      forall i | 0 <= i < |kept| - 1
        ensures !IsGlob(kept[1..][i])
      {
        assert !IsGlob(kept[i + 1]);
      }
      BeforeGlobIs(kept[1..], rest);
    }
  }

  /** A scope with a wildcard is cut off in front of it, and so are the slashes there. */
  lemma WildcardScope(scope: string, slashes: string, wildcard: char, rest: string)
    requires PlainScope(scope) && All(slashes, IS_SLASH)
    requires wildcard == '*' || wildcard == '?' || wildcard == '['
    ensures NormalizeScope(scope + slashes + [wildcard] + rest) == scope
  {
    PlainEnds(scope);
    hide PlainScope;
    var kept := scope + slashes + [wildcard];
    assert kept[0] == scope[0] && kept[|kept| - 1] == wildcard;
    StripRightKeeps(kept, rest, IS_SPACE);
    var spaced := StripRight(rest, IS_SPACE);
    assert Strip(kept + rest, IS_SPACE) == kept + spaced by { StripLeftStops(kept + spaced, IS_SPACE); }
    ForwardSlashesConcat(kept, spaced);
    assert ForwardSlashes(kept) == kept by {
      forall i | 0 <= i < |kept|
        ensures kept[i] != '\\'
      {
        assert i < |scope| ==> kept[i] == scope[i] && kept[i] in scope;
        assert |scope| <= i < |scope| + |slashes| ==> IS_SLASH(slashes[i - |scope|]);
      }
      ForwardSlashesPlain(kept);
    }
    var slashed := ForwardSlashes(spaced);
    StripRightKeeps(kept, slashed, IS_SLASH);
    var tail := StripRight(slashed, IS_SLASH);
    assert Strip(kept + slashed, IS_SLASH) == kept + tail by { StripLeftStops(kept + tail, IS_SLASH); }
    hide Strip, ForwardSlashes;
    var all := kept + tail;
    assert NormalizeScope(kept + rest) == scope by {
      assert IsGlob(all[|scope| + |slashes|]);
      assert all == (scope + slashes) + ([wildcard] + tail);
      assert !HasGlob(scope + slashes) by {
        forall i | 0 <= i < |scope + slashes|
          ensures !IsGlob((scope + slashes)[i])
        {
          assert i >= |scope| ==> IS_SLASH(slashes[i - |scope|]);
        }
      }
      BeforeGlobIs(scope + slashes, [wildcard] + tail);
      StripRightSkips(scope, slashes, IS_SLASH);
    }
    assert scope + slashes + [wildcard] + rest == kept + rest;
  }

  /** A scope that takes the whole repository is written "codex-rs"; any other one is taken relative to that
      directory, whether it names it or not. */
  ghost predicate Means(written: string, relative: string) {
    if relative == "" then Writes(written, "codex-rs")
    else
      && PlainScope(relative)
      && (Writes(written, "codex-rs/" + relative)
          || (Writes(written, relative) && relative != "codex-rs" && !("codex-rs/" <= relative)))
  }

  lemma RootIsPlain(relative: string)
    requires relative == "" || PlainScope(relative)
    ensures PlainScope(if relative == "" then "codex-rs" else "codex-rs/" + relative)
  {
    assert IsPlainEnd('c') && IsPlainEnd('s');
    var s := if relative == "" then "codex-rs" else "codex-rs/" + relative;
    if relative != "" {
      assert s[|s| - 1] == relative[|relative| - 1];
    }
    forall i | 0 <= i < |s|
      ensures !IsGlob(s[i])
    {
      assert i >= 9 ==> s[i] == relative[i - 9];
    }
  }

  lemma CanonicalAsWritten(written: string, relative: string)
    requires Means(written, relative)
    ensures CanonicalScope(written) == relative
  {
    RootIsPlain(relative);
    hide PlainScope, Writes, NormalizeScope;
    if relative == "" {
      WrittenScope(written, "codex-rs");
    } else if Writes(written, "codex-rs/" + relative) {
      WrittenScope(written, "codex-rs/" + relative);
      assert ("codex-rs/" + relative)[9..] == relative;
    } else {
      WrittenScope(written, relative);
    }
  }

  /** Two scopes overlap exactly when one takes the whole repository or is, segment by segment, the other or a
      directory above it. */
  lemma OverlapAsWritten(one: string, a: string, other: string, b: string)
    requires Means(one, a) && Means(other, b)
    ensures ScopesOverlap(one, other) <==> a == "" || b == "" || a == b || a + "/" <= b || b + "/" <= a
  {
    CanonicalAsWritten(one, a);
    CanonicalAsWritten(other, b);
    hide Means, CanonicalScope;
  }

  // ---------- Suffixes ----------

  function ValueOf(digits: string): (n: int) {
    if digits == "" then 0
    else ValueOf(digits[..|digits| - 1]) * 10 + (digits[|digits| - 1] as int - '0' as int)
  }

  /** Suffixes are decimal numbers without leading zeros. */
  lemma {:induction false} DecimalIsValue(n: nat)
    ensures ValueOf(Decimal(n)) == n
    ensures forall c :: c in Decimal(n) ==> '0' <= c <= '9'
    ensures Decimal(n)[0] == '0' ==> Decimal(n) == "0"
  {
    if n < 10 {
      assert Decimal(n)[..0] == "";
    } else {
      var front := Decimal(n / 10);
      DecimalIsValue(n / 10);
      assert Decimal(n)[..|front|] == front;
      assert front == "0" ==> ValueOf(front) == 0 by { DecimalZero(); }
    }
  }

  lemma DecimalZero()
    ensures ValueOf("0") == 0
  {
    assert "0"[..0] == "";
  }

  // ---------- Who gets which scope ----------

  /** The scope a task asks for: the one it was written with or, if that is blank, one below the root, or the root
      itself for a single task. */
  ghost predicate AsksFor(task: Task, root: string, many: bool, scope: string) {
    || (PlainScope(scope) && Writes(task.scope, scope))
    || (task.scope == "" && scope == if many then root + "/" + task.name else root)
  }

  lemma BaseIsAskedFor(task: Task, root: string, many: bool, scope: string)
    requires AsksFor(task, root, many, scope)
    ensures BaseScope(task, root, many) == scope
  {
    if PlainScope(scope) && Writes(task.scope, scope) {
      WrittenScope(task.scope, scope);
      assert scope != "";
    } else {
      BlankScope("", "", "");
      assert "" + "" + "" == "";
    }
    hide Writes, PlainScope, NormalizeScope;
  }

  predicate Clashes(scope: string, used: seq<string>) {
    exists i :: 0 <= i < |used| && ScopesOverlap(scope, used[i])
  }

  /** The scope asked for where it is free; otherwise the first free one among the task's own scope below the root
      and those with the suffixes "-1", "-2" and so on. */
  ghost predicate IsGiven(name: string, root: string, asked: string, used: seq<string>, scope: string) {
    if !Clashes(asked, used) then scope == asked
    else
      exists k: nat ::
        && scope == root + "/" + TriedName(name, k) && !Clashes(scope, used)
        && forall j: nat :: j < k ==> Clashes(root + "/" + TriedName(name, j), used)
  }

  lemma {:induction false} FirstFreeIsFirst(root: string, name: string, used: seq<string>, k: nat)
    requires FirstFree(root, name, used, k).Some?
    requires forall j: nat :: j < k ==> Blocked(Fallback(root, name, j), used)
    ensures exists n: nat :: FirstFree(root, name, used, k).value == Fallback(root, name, n)
              && !Blocked(Fallback(root, name, n), used)
              && forall j: nat :: j < n ==> Blocked(Fallback(root, name, j), used)
    decreases |used| + 1 - k
  {
    hide Blocked, Fallback;
    if Blocked(Fallback(root, name, k), used) {
      FirstFreeIsFirst(root, name, used, k + 1);
    }
  }

  lemma ChosenIsGiven(task: Task, root: string, many: bool, used: seq<string>)
    requires Choose(task, root, many, used).Some?
    ensures IsGiven(task.name, root, BaseScope(task, root, many), used, Choose(task, root, many, used).value)
  {
    var base := BaseScope(task, root, many);
    assert forall s :: Clashes(s, used) == Blocked(s, used);
    hide ScopesOverlap, BaseScope, TriedName, Clashes, Blocked;
    if Blocked(base, used) {
      FirstFreeIsFirst(root, task.name, used, 0);
      var n: nat :| FirstFree(root, task.name, used, 0).value == Fallback(root, task.name, n)
                    && !Blocked(Fallback(root, task.name, n), used)
                    && forall j: nat :: j < n ==> Blocked(Fallback(root, task.name, j), used);
      var scope := Fallback(root, task.name, n);
      assert scope == root + "/" + TriedName(task.name, n) && !Clashes(scope, used);
      forall j: nat | j < n
        ensures Clashes(root + "/" + TriedName(task.name, j), used)
      {
        assert Blocked(Fallback(root, task.name, j), used);
      }
    }
  }

  /** An allocation gives every task its scope in turn, with the scopes before it taken. */
  lemma {:induction false} AllocatedIsGiven(tasks: seq<Task>, root: string, many: bool, used: seq<string>, i: nat)
    requires Allocate(tasks, root, many, used).Some? && i < |tasks|
    ensures var r := Allocate(tasks, root, many, used).value;
            && |r| == |tasks|
            && IsGiven(tasks[i].name, root, BaseScope(tasks[i], root, many), used + r[..i], r[i])
    decreases |tasks|
  {
    hide Choose, IsGiven, BaseScope;
    var scope := Choose(tasks[0], root, many, used).value;
    var r := Allocate(tasks, root, many, used).value;
    var rest := Allocate(tasks[1..], root, many, used + [scope]).value;
    assert r == [scope] + rest;
    AllocatedLength(tasks[1..], root, many, used + [scope]);
    if i == 0 {
      ChosenIsGiven(tasks[0], root, many, used);
      assert used + r[..0] == used;
    } else {
      AllocatedIsGiven(tasks[1..], root, many, used + [scope], i - 1);
      assert used + [scope] + rest[..i - 1] == used + r[..i];
    }
  }

  lemma {:induction false} AllocatedLength(tasks: seq<Task>, root: string, many: bool, used: seq<string>)
    requires Allocate(tasks, root, many, used).Some?
    ensures |Allocate(tasks, root, many, used).value| == |tasks|
    decreases |tasks|
  {
    hide Choose;
    if tasks == [] {
    } else {
      AllocatedLength(tasks[1..], root, many, used + [Choose(tasks[0], root, many, used).value]);
    }
  }

  // ---------- Names ----------

  /** What the words of a name are made of. */
  predicate IsWordChar(c: char) {
    'a' <= c <= 'z' || '0' <= c <= '9' || c == '_'
  }

  predicate IsWord(word: string) {
    word != "" && forall i :: 0 <= i < |word| ==> IsWordChar(word[i])
  }

  /** Anything else stands between words. */
  predicate IsGap(gap: string) {
    forall i :: 0 <= i < |gap| ==> !IsWordChar(gap[i])
  }

  /** A gap of at least one character after each word; only the last one may be empty. */
  predicate AreWords(words: seq<string>, gaps: seq<string>)
    decreases |words|
  {
    && |gaps| == |words|
    && (words == [] ||
        (IsWord(words[0]) && IsGap(gaps[0]) && (|words| > 1 ==> gaps[0] != "") && AreWords(words[1..], gaps[1..])))
  }

  function RawName(words: seq<string>, gaps: seq<string>): string
    requires |gaps| == |words|
    decreases |words|
  {
    if words == [] then "" else words[0] + (gaps[0] + RawName(words[1..], gaps[1..]))
  }

  function Dashed(s: string): string {
    SingleDashes(OnlyNameChars(s))
  }

  lemma {:induction false} OnlyNameCharsConcat(a: string, b: string)
    ensures OnlyNameChars(a + b) == OnlyNameChars(a) + OnlyNameChars(b)
  {
    if a == "" {
      assert a + b == b;
    } else {
      assert (a + b)[1..] == a[1..] + b;
      OnlyNameCharsConcat(a[1..], b);
    }
  }

  lemma {:induction false} WordIsKept(word: string)
    requires forall i :: 0 <= i < |word| ==> IsWordChar(word[i])
    ensures OnlyNameChars(word) == word
  {
    if word == "" {
    } else {
      assert IsWordChar(word[0]);
      WordIsKept(word[1..]);
    }
  }

  lemma {:induction false} GapIsDashes(gap: string)
    requires IsGap(gap)
    ensures |OnlyNameChars(gap)| == |gap| && All(OnlyNameChars(gap), IS_DASH)
  {
    if gap == "" {
    } else {
      assert !IsWordChar(gap[0]);
      GapIsDashes(gap[1..]);
    }
  }

  lemma {:induction false} DashesBecomeOne(dashes: string, rest: string)
    requires All(dashes, IS_DASH) && dashes != "" && (rest == "" || rest[0] != '-')
    ensures SingleDashes(dashes + rest) == "-" + SingleDashes(rest)
  {
    var s := dashes + rest;
    assert IS_DASH(dashes[0]);
    assert s[1..] == dashes[1..] + rest;
    if |dashes| > 1 {
      assert IS_DASH(dashes[1]);
      DashesBecomeOne(dashes[1..], rest);
    } else {
      assert dashes[1..] + rest == rest;
    }
  }

  lemma FirstCharStays(s: string)
    requires s != "" && s[0] != '-'
    ensures SingleDashes(s) == [s[0]] + SingleDashes(s[1..])
  {
  }

  lemma {:induction false} WordStays(word: string, rest: string)
    requires forall i :: 0 <= i < |word| ==> IsWordChar(word[i])
    ensures SingleDashes(word + rest) == word + SingleDashes(rest)
  {
    if word == "" {
      assert word + rest == rest;
    } else {
      var s := word + rest;
      assert s[1..] == word[1..] + rest;
      assert IsWordChar(s[0]);
      FirstCharStays(s);
      assert forall i :: 0 <= i < |word| - 1 ==> word[1..][i] == word[i + 1];
      hide SingleDashes, IsWordChar;
      WordStays(word[1..], rest);
      assert [s[0]] + word[1..] == word;
    }
  }

  /** The mark that a gap leaves. */
  function GapMark(gap: string): string {
    if gap == "" then "" else "-"
  }

  lemma HeadIsKept(rest: string)
    requires rest == "" || IsWordChar(rest[0])
    ensures var tail := OnlyNameChars(rest);
            (tail == "" <==> rest == "") && (tail != "" ==> tail[0] == rest[0] && tail[0] != '-')
  {
  }

  lemma WordThenGap(word: string, gap: string, rest: string)
    requires IsWord(word) && IsGap(gap)
    ensures OnlyNameChars(word + (gap + rest)) == word + (OnlyNameChars(gap) + OnlyNameChars(rest))
  {
    hide OnlyNameChars;
    OnlyNameCharsConcat(word, gap + rest);
    OnlyNameCharsConcat(gap, rest);
    WordIsKept(word);
  }

  /** A word and the gap after it. */
  lemma DashedWord(word: string, gap: string, rest: string)
    requires IsWord(word) && IsGap(gap) && (rest == "" || IsWordChar(rest[0]))
    ensures Dashed(word + (gap + rest)) == word + GapMark(gap) + Dashed(rest)
  {
    hide OnlyNameChars, SingleDashes, IsWordChar;
    WordThenGap(word, gap, rest);
    GapIsDashes(gap);
    HeadIsKept(rest);
    var dashes, tail := OnlyNameChars(gap), OnlyNameChars(rest);
    hide IsGap, All;
    WordStays(word, dashes + tail);
    if gap == "" {
      assert dashes == "";
      assert dashes + tail == tail && word + "" == word;
    } else {
      DashesBecomeOne(dashes, tail);
      assert word + ("-" + SingleDashes(tail)) == word + "-" + SingleDashes(tail);
    }
  }

  lemma EmptyDashed()
    ensures Dashed("") == ""
  {
  }

  lemma RawNameHead(words: seq<string>, gaps: seq<string>)
    requires AreWords(words, gaps) && words != []
    ensures RawName(words, gaps) != "" && RawName(words, gaps)[0] == words[0][0] && IsWordChar(words[0][0])
  {
    assert IsWord(words[0]);
  }

  /** The words with single dashes between them, and one after the last if something follows it. */
  lemma {:induction false} DashedWords(words: seq<string>, gaps: seq<string>)
    requires AreWords(words, gaps)
    ensures Dashed(RawName(words, gaps)) ==
            if words == [] then "" else Join(words, "-") + GapMark(gaps[|gaps| - 1])
    decreases |words|
  {
    hide Dashed, IsWord, IsGap, IsWordChar;
    if words == [] {
      EmptyDashed();
    } else {
      var rest := RawName(words[1..], gaps[1..]);
      if |words| > 1 {
        RawNameHead(words[1..], gaps[1..]);
      } else {
        assert rest == "";
      }
      DashedWord(words[0], gaps[0], rest);
      DashedWords(words[1..], gaps[1..]);
      hide RawName;
      if |words| > 1 {
        assert gaps[1..][|gaps| - 2] == gaps[|gaps| - 1];
        assert words[0] + "-" + (Join(words[1..], "-") + GapMark(gaps[|gaps| - 1])) ==
               Join(words, "-") + GapMark(gaps[|gaps| - 1]);
      }
    }
  }

  lemma {:induction false} JoinedWords(words: seq<string>)
    requires words != [] && forall i :: 0 <= i < |words| ==> IsWord(words[i])
    ensures EndsKept(Join(words, "-"), IS_DASH) && Join(words, "-")[0] == words[0][0]
  {
    assert IsWord(words[0]);
    assert IsWordChar(words[0][0]) && IsWordChar(words[0][|words[0]| - 1]);
    if |words| > 1 {
      JoinedWords(words[1..]);
    }
  }

  lemma {:induction false} EachIsWord(words: seq<string>, gaps: seq<string>, i: nat)
    requires AreWords(words, gaps) && i < |words|
    ensures IsWord(words[i])
    decreases |words|
  {
    hide IsWord, IsGap;
    if i > 0 {
      EachIsWord(words[1..], gaps[1..], i - 1);
    }
  }

  lemma DashedLead(lead: string, rest: string)
    requires IsGap(lead) && (rest == "" || IsWordChar(rest[0]))
    ensures Dashed(lead + rest) == GapMark(lead) + Dashed(rest)
  {
    OnlyNameCharsConcat(lead, rest);
    GapIsDashes(lead);
    var dashes, tail := OnlyNameChars(lead), OnlyNameChars(rest);
    assert rest != "" ==> tail[0] == rest[0];
    hide OnlyNameChars, SingleDashes;
    if lead == "" {
      assert dashes + tail == tail;
    } else {
      DashesBecomeOne(dashes, tail);
    }
  }

  lemma DashedRaw(lead: string, words: seq<string>, gaps: seq<string>)
    requires IsGap(lead) && AreWords(words, gaps)
    ensures Dashed(lead + RawName(words, gaps)) ==
            GapMark(lead) + if words == [] then "" else Join(words, "-") + GapMark(gaps[|gaps| - 1])
  {
    DashedWords(words, gaps);
    if words != [] {
      RawNameHead(words, gaps);
    } else {
      assert RawName(words, gaps) == "";
    }
    hide Dashed, RawName, IsGap, GapMark;
    DashedLead(lead, RawName(words, gaps));
  }

  lemma MarkIsDash(gap: string)
    ensures All(GapMark(gap), IS_DASH)
  {
  }

  /** What is left between the dashes at the ends. */
  lemma StrippedName(lead: string, words: seq<string>, gaps: seq<string>)
    requires IsGap(lead) && AreWords(words, gaps)
    ensures Strip(Dashed(lead + RawName(words, gaps)), IS_DASH) == if words == [] then "" else Join(words, "-")
    ensures words != [] ==> Join(words, "-") != ""
  {
    DashedRaw(lead, words, gaps);
    MarkIsDash(lead);
    hide Dashed, RawName, GapMark, Strip, IsGap;
    if words == [] {
      assert GapMark(lead) + "" == GapMark(lead);
      StripAll(GapMark(lead), IS_DASH);
    } else {
      forall i | 0 <= i < |words|
        ensures IsWord(words[i])
      {
        EachIsWord(words, gaps, i);
      }
      hide AreWords;
      JoinedWords(words);
      var before, core, after := GapMark(lead), Join(words, "-"), GapMark(gaps[|gaps| - 1]);
      MarkIsDash(gaps[|gaps| - 1]);
      assert before + (core + after) == before + core + after;
      StripAround(before, core, after, IS_DASH);
    }
  }

  /** The name made of words with anything else around and between them: the words joined by single dashes, after
      "agent-" if the first does not start with a letter, cut off after 48 characters. Without words it is "agent". */
  lemma NameOfWords(lead: string, words: seq<string>, gaps: seq<string>)
    requires IsGap(lead) && AreWords(words, gaps)
    ensures var joined := if words == [] then "agent" else Join(words, "-");
            var name := if 'a' <= joined[0] <= 'z' then joined else "agent-" + joined;
            NormalizeName(lead + RawName(words, gaps)) == if |name| <= 48 then name else name[..48]
  {
    StrippedName(lead, words, gaps);
    hide OnlyNameChars, SingleDashes, RawName, Strip, AreWords, Join;
  }
}
