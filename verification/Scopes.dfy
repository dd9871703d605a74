/** The scope allocator of the multi-agent orchestrator: every agent gets a path scope that overlaps
    with no other agent's scope. */
module Scopes {
  import opened Wrappers
  import opened Text

  // ---------- Scopes ----------

  /** Python's `str.isspace`, which also holds of the four separators before the space. */
  predicate IsSpace(c: char) {
    IsWhitespace(c) || '\U{001C}' <= c <= '\U{001F}'
  }

  lemma SpaceIs(c: char)
    ensures IsSpace(c) <==> IsWhitespace(c) || c in {'\U{001C}', '\U{001D}', '\U{001E}', '\U{001F}'}
  {
  }

  function StripLeft(s: string, drop: char -> bool): string {
    if s != "" && drop(s[0]) then StripLeft(s[1..], drop) else s
  }

  function StripRight(s: string, drop: char -> bool): string {
    if s != "" && drop(s[|s| - 1]) then StripRight(s[..|s| - 1], drop) else s
  }

  function Strip(s: string, drop: char -> bool): string {
    StripLeft(StripRight(s, drop), drop)
  }

  function ForwardSlashes(s: string): string {
    if s == "" then "" else [if s[0] == '\\' then '/' else s[0]] + ForwardSlashes(s[1..])
  }

  predicate IsGlob(c: char) {
    c == '\\' || c == '*' || c == '?' || c == '['
  }

  predicate HasGlob(s: string) {
    exists i :: 0 <= i < |s| && IsGlob(s[i])
  }

  function BeforeGlob(s: string): string {
    if s == "" || IsGlob(s[0]) then "" else [s[0]] + BeforeGlob(s[1..])
  }

  const IS_SLASH: char -> bool := c => c == '/'

  const IS_SPACE: char -> bool := c => IsSpace(c)

  function NormalizeScope(value: string): string {
    var scope := Strip(ForwardSlashes(Strip(value, IS_SPACE)), IS_SLASH);
    if HasGlob(scope) then StripRight(BeforeGlob(scope), IS_SLASH) else scope
  }

  const ROOT_PREFIX := "codex-rs/"

  function CanonicalScope(scope: string): string {
    var normal := NormalizeScope(scope);
    if normal == "codex-rs" then ""
    else if ROOT_PREFIX <= normal then normal[|ROOT_PREFIX|..]
    else normal
  }

  /** `path` is `scope` itself or lies below it. */
  predicate Under(path: string, scope: string) {
    path == scope || scope + "/" <= path
  }

  predicate Overlap(a: string, b: string) {
    a == "" || b == "" || Under(a, b) || Under(b, a)
  }

  predicate ScopesOverlap(a: string, b: string) {
    Overlap(CanonicalScope(a), CanonicalScope(b))
  }

  // ---------- Names and fallback scopes ----------

  /** What agent names are made of. */
  predicate IsNameChar(c: char) {
    'a' <= c <= 'z' || '0' <= c <= '9' || c == '_' || c == '-'
  }

  predicate CleanName(name: string) {
    name != "" && forall i :: 0 <= i < |name| ==> IsNameChar(name[i])
  }

  function Decimal(n: nat): string {
    if n < 10 then [('0' as int + n) as char] else Decimal(n / 10) + [('0' as int + n % 10) as char]
  }

  /** The name tried first, and the names with suffixes tried after it. */
  function TriedName(name: string, k: nat): string {
    if k == 0 then name else name + "-" + Decimal(k)
  }

  function Fallback(root: string, name: string, k: nat): string {
    root + "/" + TriedName(name, k)
  }

  lemma {:induction false} DecimalClean(n: nat)
    ensures CleanName(Decimal(n))
  {
    if n >= 10 {
      DecimalClean(n / 10);
    }
  }

  lemma {:induction false} DecimalInjective(m: nat, n: nat)
    requires Decimal(m) == Decimal(n)
    ensures m == n
  {
    var a, b := Decimal(m), Decimal(n);
    DecimalClean(m / 10);
    DecimalClean(n / 10);
    assert a[|a| - 1] == b[|b| - 1];
    if m >= 10 && n >= 10 {
      assert a[..|a| - 1] == Decimal(m / 10) && b[..|b| - 1] == Decimal(n / 10);
      DecimalInjective(m / 10, n / 10);
    }
  }

  lemma TriedNamesClean(name: string, k: nat)
    requires CleanName(name)
    ensures CleanName(TriedName(name, k))
  {
    DecimalClean(k);
  }

  lemma TriedNamesDiffer(name: string, j: nat, k: nat)
    requires j != k
    ensures TriedName(name, j) != TriedName(name, k)
  {
    var a, b := TriedName(name, j), TriedName(name, k);
    if j > 0 && k > 0 {
      assert a[|name| + 1..] == Decimal(j) && b[|name| + 1..] == Decimal(k);
      if a == b {
        DecimalInjective(j, k);
      }
    }
  }

  // ---------- Canonical forms of fallback scopes ----------

  predicate IsPlainEnd(c: char) {
    c != '/' && !IsSpace(c)
  }

  /** Nothing in the text is stripped, replaced or cut off. */
  predicate PlainScope(s: string) {
    && s != "" && IsPlainEnd(s[0]) && IsPlainEnd(s[|s| - 1])
    && forall i :: 0 <= i < |s| ==> !IsGlob(s[i])
  }

  lemma {:induction false} ForwardSlashesPlain(s: string)
    requires forall i :: 0 <= i < |s| ==> s[i] != '\\'
    ensures ForwardSlashes(s) == s
  {
    if s == "" {
    } else {
      ForwardSlashesPlain(s[1..]);
    }
  }

  lemma NormalizePlain(s: string)
    requires PlainScope(s)
    ensures NormalizeScope(s) == s
  {
    assert Strip(s, IS_SPACE) == s;
    forall i | 0 <= i < |s|
      ensures s[i] != '\\'
    {
      assert !IsGlob(s[i]);
    }
    ForwardSlashesPlain(s);
    assert Strip(s, IS_SLASH) == s;
  }

  lemma CleanIsPlain(name: string)
    requires CleanName(name)
    ensures PlainScope(name)
  {
    assert IsNameChar(name[0]) && IsNameChar(name[|name| - 1]);
    forall i | 0 <= i < |name|
      ensures !IsGlob(name[i])
    {
      assert IsNameChar(name[i]);
    }
  }

  lemma FallbackIsPlain(root: string, name: string)
    requires PlainScope(root) && CleanName(name)
    ensures PlainScope(root + "/" + name)
  {
    CleanIsPlain(name);
    hide CleanName, IsPlainEnd;
    var s := root + "/" + name;
    assert s[0] == root[0] && s[|s| - 1] == name[|name| - 1];
    forall i | 0 <= i < |s|
      ensures !IsGlob(s[i])
    {
      if i > |root| {
        assert s[i] == name[i - |root| - 1];
      }
    }
  }

  /** What comes before the name in the canonical form of a fallback scope. */
  function CanonicalPrefix(root: string): string {
    if root == "codex-rs" then ""
    else if ROOT_PREFIX <= root then root[|ROOT_PREFIX|..] + "/"
    else root + "/"
  }

  lemma NameHasNoSlash(name: string)
    requires CleanName(name)
    ensures forall p :: 0 <= p < |name| ==> name[p] != '/'
  {
    forall p | 0 <= p < |name|
      ensures name[p] != '/'
    {
      assert IsNameChar(name[p]);
    }
  }

  /** A fallback scope starts with "codex-rs/" only if its root does or is that directory. */
  lemma SlashPosition(root: string, name: string)
    requires CleanName(name) && root != ""
    ensures ROOT_PREFIX <= root + "/" + name <==> root == "codex-rs" || ROOT_PREFIX <= root
    ensures ROOT_PREFIX <= root + "/" + name ==>
              (root + "/" + name)[|ROOT_PREFIX|..] == CanonicalPrefix(root) + name
    ensures root + "/" + name != "codex-rs"
  {
    var s := root + "/" + name;
    NameHasNoSlash(name);
    assert s[|root|] == '/' && "codex-rs" + "/" == ROOT_PREFIX;
    assert forall p :: 0 <= p < 8 ==> "codex-rs"[p] != '/';
    if ROOT_PREFIX <= s {
      assert s[8] == '/' && s[..8] == "codex-rs";
      assert |root| >= 8;
      if |root| == 8 {
        assert root == s[..8];
      } else {
        assert root[..9] == s[..9] == ROOT_PREFIX;
      }
    }
    if ROOT_PREFIX <= root {
      assert s == ROOT_PREFIX + root[|ROOT_PREFIX|..] + "/" + name;
    }
  }

  lemma FallbackCanonical(root: string, name: string)
    requires PlainScope(root) && CleanName(name)
    ensures CanonicalScope(root + "/" + name) == CanonicalPrefix(root) + name
  {
    FallbackIsPlain(root, name);
    NormalizePlain(root + "/" + name);
    hide CleanName, PlainScope, NormalizeScope;
    SlashPosition(root, name);
  }

  // ---------- Each accepted scope blocks at most one fallback ----------

  /** The accepted scope covers the fallback root: it is the whole repository, the root or a directory
      above it, so that every fallback scope overlaps with it. */
  predicate Covers(root: string, scope: string) {
    CanonicalScope(scope) == "" || CanonicalScope(scope) + "/" <= CanonicalPrefix(root)
  }

  lemma {:induction false} FirstSegmentOfName(name: string, rest: string)
    requires forall i :: 0 <= i < |name| ==> name[i] != '/'
    requires rest == "" || rest[0] == '/'
    ensures FirstSegment(name + rest) == name
  {
    if name == "" {
      assert name + rest == rest;
    } else {
      assert (name + rest)[1..] == name[1..] + rest;
      FirstSegmentOfName(name[1..], rest);
    }
  }

  /** What is strictly above a fallback scope is above its root or is the root. */
  lemma AboveFallback(prefix: string, name: string, canonical: string)
    requires forall p :: 0 <= p < |name| ==> name[p] != '/'
    requires canonical + "/" <= prefix + name
    ensures canonical + "/" <= prefix
  {
    var fallback := prefix + name;
    assert fallback[|canonical|] == '/';
    assert forall p :: |prefix| <= p < |fallback| ==> fallback[p] == name[p - |prefix|];
    assert |canonical| < |prefix|;
    assert canonical + "/" == fallback[..|canonical| + 1] == prefix[..|canonical| + 1];
  }

  /** Where a scope that does not cover the root overlaps with a fallback, the scope names it. */
  lemma OverlapNamesFallback(root: string, name: string, canonical: string)
    requires CleanName(name)
    requires canonical != "" && !(canonical + "/" <= CanonicalPrefix(root))
    requires Overlap(canonical, CanonicalPrefix(root) + name)
    ensures CanonicalPrefix(root) <= canonical
    ensures FirstSegment(canonical[|CanonicalPrefix(root)|..]) == name
  {
    var prefix := CanonicalPrefix(root);
    var fallback := prefix + name;
    NameHasNoSlash(name);
    hide CanonicalPrefix, CleanName;
    if canonical == fallback {
      assert canonical[|prefix|..] == name && name + "" == name;
      FirstSegmentOfName(name, "");
    } else if fallback + "/" <= canonical {
      var rest := canonical[|fallback|..];
      assert rest[0] == '/';
      assert canonical[|prefix|..] == name + rest;
      FirstSegmentOfName(name, rest);
    } else {
      AboveFallback(prefix, name, canonical);
    }
  }

  /** Two different fallback names are not blocked by the same accepted scope. */
  lemma BlocksAtMostOne(root: string, scope: string, one: string, other: string)
    requires PlainScope(root) && CleanName(one) && CleanName(other) && one != other
    requires !Covers(root, scope)
    ensures !ScopesOverlap(root + "/" + one, scope) || !ScopesOverlap(root + "/" + other, scope)
  {
    hide CanonicalScope, PlainScope, CanonicalPrefix;
    FallbackCanonical(root, one);
    FallbackCanonical(root, other);
    var canonical := CanonicalScope(scope);
    if Overlap(canonical, CanonicalPrefix(root) + one) && Overlap(canonical, CanonicalPrefix(root) + other) {
      OverlapNamesFallback(root, one, canonical);
      OverlapNamesFallback(root, other, canonical);
    }
  }

  /** A scope that covers the root blocks every fallback there is. */
  lemma CoverBlocksAll(root: string, name: string, scope: string)
    requires PlainScope(root) && CleanName(name) && Covers(root, scope)
    ensures ScopesOverlap(root + "/" + name, scope)
  {
    hide CanonicalScope, PlainScope, CanonicalPrefix;
    FallbackCanonical(root, name);
    var canonical := CanonicalScope(scope);
    if canonical != "" {
      assert canonical + "/" <= CanonicalPrefix(root) + name;
    }
  }

  // ---------- Pigeonhole ----------

  predicate Blocked(candidate: string, used: seq<string>) {
    exists i :: 0 <= i < |used| && ScopesOverlap(candidate, used[i])
  }

  predicate AnyCovers(root: string, used: seq<string>) {
    exists i :: 0 <= i < |used| && Covers(root, used[i])
  }

  lemma BlockedCons(candidate: string, first: string, rest: seq<string>)
    ensures Blocked(candidate, [first] + rest) <==> ScopesOverlap(candidate, first) || Blocked(candidate, rest)
  {
    hide ScopesOverlap;
    var all := [first] + rest;
    assert all[0] == first;
    assert forall i :: 0 <= i < |rest| ==> all[i + 1] == rest[i];
  }

  /** More names than accepted scopes: one of the names is free. */
  lemma {:induction false} FreeNameExists(root: string, names: set<string>, used: seq<string>) returns (free: string)
    requires PlainScope(root) && (forall n :: n in names ==> CleanName(n))
    requires !AnyCovers(root, used)
    requires |names| > |used|
    ensures free in names && !Blocked(root + "/" + free, used)
    decreases |used|
  {
    hide ScopesOverlap, Covers, CleanName, PlainScope;
    if used == [] {
      free :| free in names;
    } else {
      var first, rest := used[0], used[1..];
      assert used == [first] + rest;
      assert !AnyCovers(root, rest) by {
        assert forall i :: 0 <= i < |rest| ==> rest[i] == used[i + 1];
      }
      assert !Covers(root, first);
      if exists n :: n in names && ScopesOverlap(root + "/" + n, first) {
        var taken :| taken in names && ScopesOverlap(root + "/" + taken, first);
        free := FreeNameExists(root, names - {taken}, rest);
        BlocksAtMostOne(root, first, taken, free);
      } else {
        free := FreeNameExists(root, names, rest);
      }
      BlockedCons(root + "/" + free, first, rest);
    }
  }

  function NamesUpTo(name: string, k: nat): set<string> {
    {TriedName(name, k)} + if k == 0 then {} else NamesUpTo(name, k - 1)
  }

  lemma {:induction false} NamesUpToFacts(name: string, k: nat)
    requires CleanName(name)
    ensures |NamesUpTo(name, k)| == k + 1
    ensures forall n :: n in NamesUpTo(name, k) ==> CleanName(n) && exists j :: 0 <= j <= k && n == TriedName(name, j)
  {
    hide CleanName, TriedName;
    TriedNamesClean(name, k);
    if k > 0 {
      NamesUpToFacts(name, k - 1);
      forall j: nat | j < k
        ensures TriedName(name, j) != TriedName(name, k)
      {
        TriedNamesDiffer(name, j, k);
      }
      assert TriedName(name, k) !in NamesUpTo(name, k - 1);
      assert NamesUpTo(name, k) == {TriedName(name, k)} + NamesUpTo(name, k - 1);
    }
  }

  /** When no accepted scope covers the root, one of the first `|used| + 1` fallbacks is free. */
  lemma FallbackFound(root: string, name: string, used: seq<string>) returns (k: nat)
    requires PlainScope(root) && CleanName(name) && !AnyCovers(root, used)
    ensures k <= |used| && !Blocked(Fallback(root, name, k), used)
  {
    hide CleanName, TriedName, Blocked, AnyCovers, PlainScope;
    NamesUpToFacts(name, |used|);
    var free := FreeNameExists(root, NamesUpTo(name, |used|), used);
    k :| 0 <= k <= |used| && free == TriedName(name, k);
  }

  /** When an accepted scope covers the root, the suffix loop never ends. */
  lemma FallbackNeverFound(root: string, name: string, used: seq<string>, k: nat)
    requires PlainScope(root) && CleanName(name) && AnyCovers(root, used)
    ensures Blocked(Fallback(root, name, k), used)
  {
    TriedNamesClean(name, k);
    hide CleanName, TriedName, ScopesOverlap, Covers, PlainScope;
    var i :| 0 <= i < |used| && Covers(root, used[i]);
    CoverBlocksAll(root, TriedName(name, k), used[i]);
  }

  // ---------- Allocation ----------

  datatype Task = Task(name: string, scope: string, objective: string)

  /** The scope a task asks for; a task without one gets a fallback scope. */
  function BaseScope(task: Task, root: string, many: bool): string {
    var scope := NormalizeScope(task.scope);
    if scope != "" then scope else if many then root + "/" + task.name else root
  }

  /** The first free fallback from the `k`-th on, among those that have to be tried. */
  function FirstFree(root: string, name: string, used: seq<string>, k: nat): (r: Option<string>)
    decreases |used| + 1 - k
  {
    if k > |used| then None
    else if !Blocked(Fallback(root, name, k), used) then Some(Fallback(root, name, k))
    else FirstFree(root, name, used, k + 1)
  }

  /** `None` stands for a loop that never ends. */
  function Choose(task: Task, root: string, many: bool, used: seq<string>): Option<string> {
    var base := BaseScope(task, root, many);
    if !Blocked(base, used) then Some(base) else FirstFree(root, task.name, used, 0)
  }

  function Allocate(tasks: seq<Task>, root: string, many: bool, used: seq<string>): (r: Option<seq<string>>)
    decreases |tasks|
  {
    if tasks == [] then Some([])
    else
      match Choose(tasks[0], root, many, used)
      case None => None
      case Some(scope) =>
        match Allocate(tasks[1..], root, many, used + [scope])
        case None => None
        case Some(rest) => Some([scope] + rest)
  }

  lemma {:induction false} FirstFreeFacts(root: string, name: string, used: seq<string>, k: nat)
    ensures match FirstFree(root, name, used, k) {
              case Some(scope) => !Blocked(scope, used)
                                  && exists j :: k <= j <= |used| && scope == Fallback(root, name, j)
              case None => forall j :: k <= j <= |used| ==> Blocked(Fallback(root, name, j), used)
            }
    decreases |used| + 1 - k
  {
    hide Blocked, Fallback;
    if k <= |used| && Blocked(Fallback(root, name, k), used) {
      FirstFreeFacts(root, name, used, k + 1);
    }
  }

  /** The search fails exactly when an accepted scope covers the root, and then no later suffix would
      have been free either. */
  lemma SearchFailsIff(root: string, name: string, used: seq<string>)
    requires PlainScope(root) && CleanName(name)
    ensures FirstFree(root, name, used, 0).None? <==> AnyCovers(root, used)
    ensures AnyCovers(root, used) ==> forall k: nat :: Blocked(Fallback(root, name, k), used)
  {
    hide CleanName, Blocked, Fallback, AnyCovers, FirstFree, PlainScope;
    FirstFreeFacts(root, name, used, 0);
    if AnyCovers(root, used) {
      forall k: nat
        ensures Blocked(Fallback(root, name, k), used)
      {
        FallbackNeverFound(root, name, used, k);
      }
    } else {
      var k := FallbackFound(root, name, used);
    }
  }

  ghost predicate PairwiseDisjoint(scopes: seq<string>) {
    forall i, j :: 0 <= i < j < |scopes| ==> !ScopesOverlap(scopes[i], scopes[j])
  }

  lemma OverlapSymmetric(a: string, b: string)
    ensures ScopesOverlap(a, b) == ScopesOverlap(b, a)
  {
  }

  lemma DisjointSnoc(used: seq<string>, scope: string)
    requires PairwiseDisjoint(used) && !Blocked(scope, used)
    ensures PairwiseDisjoint(used + [scope])
  {
    hide ScopesOverlap;
    var all := used + [scope];
    forall i, j | 0 <= i < j < |all|
      ensures !ScopesOverlap(all[i], all[j])
    {
      if j == |used| {
        OverlapSymmetric(used[i], scope);
      }
    }
  }

  lemma ChosenIsFree(task: Task, root: string, many: bool, used: seq<string>)
    requires Choose(task, root, many, used).Some?
    ensures !Blocked(Choose(task, root, many, used).value, used)
  {
    hide Blocked;
    FirstFreeFacts(root, task.name, used, 0);
  }

  lemma {:induction false} AllocateDisjoint(tasks: seq<Task>, root: string, many: bool, used: seq<string>)
    requires PairwiseDisjoint(used)
    requires Allocate(tasks, root, many, used).Some?
    ensures |Allocate(tasks, root, many, used).value| == |tasks|
    ensures PairwiseDisjoint(used + Allocate(tasks, root, many, used).value)
    decreases |tasks|
  {
    hide Choose, PairwiseDisjoint, Blocked;
    if tasks == [] {
      assert used + [] == used;
    } else {
      var scope := Choose(tasks[0], root, many, used).value;
      ChosenIsFree(tasks[0], root, many, used);
      DisjointSnoc(used, scope);
      AllocateDisjoint(tasks[1..], root, many, used + [scope]);
      var rest := Allocate(tasks[1..], root, many, used + [scope]).value;
      assert used + [scope] + rest == used + ([scope] + rest);
    }
  }
}
