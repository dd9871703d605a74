/** The loops that hand out and check scopes, which paths a scope holds, and when two scopes that do not
    overlap still hold a common path. */
module ScopeAllocator {
  import opened Wrappers
  import opened Scopes

  // ---------- Agent names ----------

  function OnlyNameChars(s: string): (r: string)
    ensures forall i :: 0 <= i < |r| ==> IsNameChar(r[i])
  {
    if s == "" then "" else [if IsNameChar(s[0]) then s[0] else '-'] + OnlyNameChars(s[1..])
  }

  /** Runs of '-' become one '-'. */
  function SingleDashes(s: string): (r: string)
    ensures (forall i :: 0 <= i < |s| ==> IsNameChar(s[i])) ==> forall i :: 0 <= i < |r| ==> IsNameChar(r[i])
  {
    if |s| < 2 then s
    else if s[0] == '-' && s[1] == '-' then SingleDashes(s[1..])
    else [s[0]] + SingleDashes(s[1..])
  }

  const IS_DASH: char -> bool := c => c == '-'

  const NAME_LIMIT := 48

  /** The name given to an agent, from its stripped and lower-cased raw name. */
  function NormalizeName(lowered: string): (name: string) {
    var dashed := Strip(SingleDashes(OnlyNameChars(lowered)), IS_DASH);
    var named := if dashed == "" then "agent" else dashed;
    var lettered := if 'a' <= named[0] <= 'z' then named else "agent-" + named;
    if |lettered| <= NAME_LIMIT then lettered else lettered[..NAME_LIMIT]
  }

  lemma {:induction false} StripLeftIsSuffix(s: string, drop: char -> bool)
    ensures |StripLeft(s, drop)| <= |s| && StripLeft(s, drop) == s[|s| - |StripLeft(s, drop)|..]
    ensures StripLeft(s, drop) == "" || !drop(StripLeft(s, drop)[0])
  {
    if s != "" && drop(s[0]) {
      StripLeftIsSuffix(s[1..], drop);
    }
  }

  lemma {:induction false} StripRightIsPrefix(s: string, drop: char -> bool)
    ensures StripRight(s, drop) <= s
    ensures StripRight(s, drop) == "" || !drop(StripRight(s, drop)[|StripRight(s, drop)| - 1])
  {
    if s != "" && drop(s[|s| - 1]) {
      StripRightIsPrefix(s[..|s| - 1], drop);
    }
  }

  lemma StripIsSlice(s: string, drop: char -> bool)
    ensures forall c :: c in Strip(s, drop) ==> c in s
    ensures Strip(s, drop) != "" ==> !drop(Strip(s, drop)[0]) && !drop(Strip(s, drop)[|Strip(s, drop)| - 1])
  {
    StripRightIsPrefix(s, drop);
    StripLeftIsSuffix(StripRight(s, drop), drop);
  }

  /** A normalized name is one the allocator's fallback scopes can be made of. */
  lemma NormalizedNameIsClean(lowered: string)
    ensures CleanName(NormalizeName(lowered))
    ensures 'a' <= NormalizeName(lowered)[0] <= 'z'
    ensures |NormalizeName(lowered)| <= NAME_LIMIT
  {
    var single := SingleDashes(OnlyNameChars(lowered));
    StripIsSlice(single, IS_DASH);
    hide Strip, SingleDashes, OnlyNameChars;
    var dashed := Strip(single, IS_DASH);
    forall i | 0 <= i < |dashed|
      ensures IsNameChar(dashed[i])
    {
      assert dashed[i] in single;
    }
    var named := if dashed == "" then "agent" else dashed;
    assert CleanName(named);
    assert CleanName("agent-" + named);
  }

  // ---------- The allocation loop ----------

  method OverlapsAny(candidate: string, used: seq<string>) returns (found: bool)
    ensures found <==> Blocked(candidate, used)
  {
    hide ScopesOverlap;
    var i := 0;
    while i < |used|
      invariant i <= |used|
      invariant forall j :: 0 <= j < i ==> !ScopesOverlap(candidate, used[j])
    {
      if ScopesOverlap(candidate, used[i]) {
        return true;
      }
      i := i + 1;
    }
    return false;
  }

  /** One turn of the loop: the scope for one task, `None` for a suffix loop that never ends. */
  method ChooseScope(task: Task, root: string, many: bool, used: seq<string>) returns (scope: Option<string>)
    ensures scope == Choose(task, root, many, used)
  {
    var base := NormalizeScope(task.scope);
    if base == "" {
      base := if many then root + "/" + task.name else root;
    }
    assert base == BaseScope(task, root, many);
    hide Blocked, Fallback, BaseScope;
    var taken := OverlapsAny(base, used);
    if !taken {
      return Some(base);
    }
    var candidate := Fallback(root, task.name, 0);
    taken := OverlapsAny(candidate, used);
    var suffix := 1;
    while taken && suffix <= |used|
      invariant 1 <= suffix <= |used| + 1
      invariant candidate == Fallback(root, task.name, suffix - 1)
      invariant taken <==> Blocked(candidate, used)
      invariant FirstFree(root, task.name, used, 0) == FirstFree(root, task.name, used, suffix - 1)
    {
      candidate := Fallback(root, task.name, suffix);
      taken := OverlapsAny(candidate, used);
      suffix := suffix + 1;
    }
    return if taken then None else Some(candidate);
  }

  function Prepend(first: seq<string>, rest: Option<seq<string>>): Option<seq<string>> {
    match rest
    case None => None
    case Some(more) => Some(first + more)
  }

  function ScopesOf(tasks: seq<Task>): seq<string> {
    seq(|tasks|, i requires 0 <= i < |tasks| => tasks[i].scope)
  }

  /** Two task lists agree on everything but the scopes. */
  ghost predicate SameWork(a: seq<Task>, b: seq<Task>) {
    |a| == |b| && forall i :: 0 <= i < |a| ==> a[i].name == b[i].name && a[i].objective == b[i].objective
  }

  lemma AllocateStep(tasks: seq<Task>, root: string, many: bool, used: seq<string>, i: nat)
    requires i < |tasks|
    ensures match Choose(tasks[i], root, many, used) {
              case None => Allocate(tasks[i..], root, many, used) == None
              case Some(scope) =>
                Prepend(used, Allocate(tasks[i..], root, many, used))
                == Prepend(used + [scope], Allocate(tasks[i + 1..], root, many, used + [scope]))
            }
  {
    hide Choose;
    assert tasks[i..][0] == tasks[i] && tasks[i..][1..] == tasks[i + 1..];
    match Choose(tasks[i], root, many, used)
    case None =>
    case Some(scope) =>
      match Allocate(tasks[i + 1..], root, many, used + [scope])
      case None =>
      case Some(rest) =>
        assert used + ([scope] + rest) == used + [scope] + rest;
  }

  lemma AllocateNothing(root: string, many: bool, used: seq<string>)
    ensures Allocate([], root, many, used) == Some([])
  {
  }

  /** `None` when the suffix loop of one of the tasks never ends. */
  method NormalizeDisjointScopes(tasks: seq<Task>, root: string) returns (r: Option<seq<Task>>)
    ensures match r {
              case None => Allocate(tasks, root, |tasks| > 1, []) == None
              case Some(normalized) =>
                SameWork(normalized, tasks)
                && Allocate(tasks, root, |tasks| > 1, []) == Some(ScopesOf(normalized))
            }
  {
    hide Choose, Allocate;
    var used: seq<string> := [];
    var normalized: seq<Task> := [];
    var many := |tasks| > 1;
    ghost var all := Allocate(tasks, root, many, []);
    assert tasks[0..] == tasks;
    assert all == Prepend([], all) by {
      assert all.Some? ==> [] + all.value == all.value;
    }
    var i := 0;
    while i < |tasks|
      invariant i <= |tasks|
      invariant used == ScopesOf(normalized)
      invariant SameWork(normalized, tasks[..i])
      invariant all == Prepend(used, Allocate(tasks[i..], root, many, used))
    {
      var item := tasks[i];
      AllocateStep(tasks, root, many, used, i);
      var candidate := ChooseScope(item, root, many, used);
      if candidate == None {
        return None;
      }
      normalized := normalized + [Task(item.name, candidate.value, item.objective)];
      used := used + [candidate.value];
      i := i + 1;
    }
    assert tasks[i..] == [] && tasks[..i] == tasks;
    AllocateNothing(root, many, used);
    assert used + [] == used;
    return Some(normalized);
  }

  // ---------- When the allocation is good ----------

  method ValidateScopeRules(tasks: seq<Task>) returns (ok: bool, issues: seq<(nat, nat)>)
    ensures ok <==> PairwiseDisjoint(ScopesOf(tasks))
    ensures forall i: nat, j: nat :: (i, j) in issues <==>
                                     i < j < |tasks| && ScopesOverlap(tasks[i].scope, tasks[j].scope)
  {
    hide ScopesOverlap;
    issues := [];
    var i := 0;
    while i < |tasks|
      invariant i <= |tasks|
      invariant forall a: nat, b: nat :: (a, b) in issues <==>
                                         a < i && a < b < |tasks| && ScopesOverlap(tasks[a].scope, tasks[b].scope)
    {
      var j := i + 1;
      while j < |tasks|
        invariant i < j <= |tasks|
        invariant forall a: nat, b: nat :: (a, b) in issues <==>
                                           (a < i || (a == i && b < j)) && a < b < |tasks|
                                           && ScopesOverlap(tasks[a].scope, tasks[b].scope)
      {
        if ScopesOverlap(tasks[i].scope, tasks[j].scope) {
          issues := issues + [(i, j)];
        }
        j := j + 1;
      }
      i := i + 1;
    }
    ok := |issues| == 0;
    if !ok {
      var (a, b) := issues[0];
      assert (a, b) in issues;
      assert ScopesOverlap(ScopesOf(tasks)[a], ScopesOf(tasks)[b]);
    }
  }

  /** Every allocation that ends passes the validation. */
  lemma AllocationIsValid(tasks: seq<Task>, root: string)
    requires Allocate(tasks, root, |tasks| > 1, []).Some?
    ensures |Allocate(tasks, root, |tasks| > 1, []).value| == |tasks|
    ensures PairwiseDisjoint(Allocate(tasks, root, |tasks| > 1, []).value)
  {
    hide Allocate;
    AllocateDisjoint(tasks, root, |tasks| > 1, []);
    var scopes := Allocate(tasks, root, |tasks| > 1, []).value;
    assert [] + scopes == scopes;
  }

  // ---------- Which roots are plain ----------

  lemma {:induction false} ForwardSlashesFacts(s: string)
    ensures |ForwardSlashes(s)| == |s| && '\\' !in ForwardSlashes(s)
    ensures '\\' !in s ==> ForwardSlashes(s) == s
  {
    if s == "" {
    } else {
      ForwardSlashesFacts(s[1..]);
    }
  }

  lemma {:induction false} BeforeGlobIsPrefix(s: string)
    ensures BeforeGlob(s) <= s
    ensures HasGlob(s) ==> |BeforeGlob(s)| < |s|
  {
    if s != "" && !IsGlob(s[0]) {
      BeforeGlobIsPrefix(s[1..]);
      if HasGlob(s) {
        var i :| 0 <= i < |s| && IsGlob(s[i]);
        assert s[1..][i - 1] == s[i];
      }
    }
  }

  lemma StripShortens(s: string, drop: char -> bool)
    ensures |Strip(s, drop)| <= |s|
    ensures |Strip(s, drop)| == |s| ==> Strip(s, drop) == s
  {
    StripRightIsPrefix(s, drop);
    StripLeftIsSuffix(StripRight(s, drop), drop);
  }

  lemma NormalIsPlain(scope: string)
    requires scope != "" && NormalizeScope(scope) == scope
    ensures PlainScope(scope)
  {
    var stripped := Strip(scope, IS_SPACE);
    var slashed := ForwardSlashes(stripped);
    var bare := Strip(slashed, IS_SLASH);
    StripShortens(scope, IS_SPACE);
    ForwardSlashesFacts(stripped);
    StripShortens(slashed, IS_SLASH);
    BeforeGlobIsPrefix(bare);
    StripRightIsPrefix(BeforeGlob(bare), IS_SLASH);
    StripIsSlice(scope, IS_SPACE);
    StripIsSlice(slashed, IS_SLASH);
    hide Strip, StripRight, BeforeGlob, ForwardSlashes;
    assert !HasGlob(bare) && bare == scope && stripped == scope;
  }

  /** The plain scopes are those that normalization leaves alone. */
  lemma PlainIffNormal(scope: string)
    ensures PlainScope(scope) <==> scope != "" && NormalizeScope(scope) == scope
  {
    if PlainScope(scope) {
      NormalizePlain(scope);
    }
    if scope != "" && NormalizeScope(scope) == scope {
      NormalIsPlain(scope);
    }
  }

  // ---------- When the allocation ends ----------

  /** The scopes the tasks ask for. */
  function BaseScopes(tasks: seq<Task>, root: string, many: bool): seq<string> {
    seq(|tasks|, i requires 0 <= i < |tasks| => BaseScope(tasks[i], root, many))
  }

  /** `scopes[j]` is the first scope that overlaps with an earlier one, and an earlier one covers the
      root. */
  ghost predicate Stuck(scopes: seq<string>, root: string, j: nat)
    requires j < |scopes|
  {
    PairwiseDisjoint(scopes[..j]) && Blocked(scopes[j], scopes[..j]) && AnyCovers(root, scopes[..j])
  }

  /** A fallback scope has been handed out and no accepted scope covers the root. */
  ghost predicate FellBack(root: string, used: seq<string>) {
    && !AnyCovers(root, used)
    && exists i, name :: 0 <= i < |used| && CleanName(name) && used[i] == root + "/" + name
  }

  lemma FallbackDoesNotCover(root: string, name: string)
    requires PlainScope(root) && CleanName(name)
    ensures !Covers(root, root + "/" + name)
  {
    FallbackCanonical(root, name);
    hide CanonicalScope, PlainScope, CanonicalPrefix;
  }

  lemma AnyCoversSnoc(root: string, used: seq<string>, scope: string)
    ensures AnyCovers(root, used + [scope]) <==> AnyCovers(root, used) || Covers(root, scope)
  {
    hide Covers;
    var all := used + [scope];
    assert all[|used|] == scope && forall i :: 0 <= i < |used| ==> all[i] == used[i];
  }

  /** Once a fallback has been handed out, no scope that covers the root is accepted any more. */
  lemma FreeKeepsFellBack(root: string, used: seq<string>, scope: string)
    requires PlainScope(root) && FellBack(root, used) && !Blocked(scope, used)
    ensures FellBack(root, used + [scope])
  {
    hide ScopesOverlap, Covers, CleanName, AnyCovers;
    var i, name :| 0 <= i < |used| && CleanName(name) && used[i] == root + "/" + name;
    if Covers(root, scope) {
      CoverBlocksAll(root, name, scope);
      OverlapSymmetric(used[i], scope);
      assert false;
    }
    AnyCoversSnoc(root, used, scope);
    assert (used + [scope])[i] == root + "/" + name;
  }

  lemma {:induction false} AllocateEnds(tasks: seq<Task>, root: string, many: bool, used: seq<string>)
    requires PlainScope(root) && forall i :: 0 <= i < |tasks| ==> CleanName(tasks[i].name)
    requires FellBack(root, used)
    ensures Allocate(tasks, root, many, used).Some?
    decreases |tasks|
  {
    if tasks == [] {
    } else {
      SearchFailsIff(root, tasks[0].name, used);
      assert Choose(tasks[0], root, many, used).Some? by {
        hide Blocked, FirstFree, BaseScope, AnyCovers;
      }
      var scope := Choose(tasks[0], root, many, used).value;
      ChosenIsFree(tasks[0], root, many, used);
      FreeKeepsFellBack(root, used, scope);
      hide Choose, FellBack, CleanName, Blocked, FirstFree;
      assert forall i :: 0 <= i < |tasks| - 1 ==> tasks[1..][i] == tasks[i + 1];
      AllocateEnds(tasks[1..], root, many, used + [scope]);
    }
  }

  /** A task whose own scope is taken gets a fallback, unless an accepted scope covers the root. */
  lemma TakenFallsBack(task: Task, root: string, many: bool, used: seq<string>)
    requires PlainScope(root) && CleanName(task.name) && Blocked(BaseScope(task, root, many), used)
    ensures Choose(task, root, many, used).None? <==> AnyCovers(root, used)
    ensures !AnyCovers(root, used) ==> FellBack(root, used + [Choose(task, root, many, used).value])
  {
    hide Blocked, BaseScope, AnyCovers, CleanName, Covers;
    SearchFailsIff(root, task.name, used);
    FirstFreeFacts(root, task.name, used, 0);
    if !AnyCovers(root, used) {
      var scope := Choose(task, root, many, used).value;
      var k :| 0 <= k <= |used| && scope == Fallback(root, task.name, k);
      var name := TriedName(task.name, k);
      TriedNamesClean(task.name, k);
      FallbackDoesNotCover(root, name);
      AnyCoversSnoc(root, used, scope);
      assert (used + [scope])[|used|] == root + "/" + name;
    }
  }

  lemma NotDisjointBeyond(scopes: seq<string>, i: nat, j: nat)
    requires i < j <= |scopes| && Blocked(scopes[i], scopes[..i])
    ensures !PairwiseDisjoint(scopes[..j])
  {
    hide ScopesOverlap;
    var k :| 0 <= k < i && ScopesOverlap(scopes[i], scopes[..i][k]);
    OverlapSymmetric(scopes[k], scopes[i]);
    assert scopes[..j][k] == scopes[k] && scopes[..j][i] == scopes[i];
  }

  lemma {:induction false} HangsFrom(tasks: seq<Task>, root: string, many: bool, i: nat)
    requires PlainScope(root) && forall k :: 0 <= k < |tasks| ==> CleanName(tasks[k].name)
    requires i <= |tasks| && PairwiseDisjoint(BaseScopes(tasks, root, many)[..i])
    ensures Allocate(tasks[i..], root, many, BaseScopes(tasks, root, many)[..i]).None? <==>
            exists j :: i <= j < |tasks| && Stuck(BaseScopes(tasks, root, many), root, j)
    decreases |tasks| - i
  {
    hide Blocked, AnyCovers, CleanName, PairwiseDisjoint, BaseScope;
    var scopes := BaseScopes(tasks, root, many);
    var used := scopes[..i];
    if i < |tasks| {
      var rest := tasks[i + 1..];
      assert tasks[i..][0] == tasks[i] && tasks[i..][1..] == rest;
      assert scopes[i] == BaseScope(tasks[i], root, many);
      if Blocked(scopes[i], used) {
        TakenFallsBack(tasks[i], root, many, used);
        forall j | i < j < |tasks|
          ensures !Stuck(scopes, root, j)
        {
          NotDisjointBeyond(scopes, i, j);
        }
        if AnyCovers(root, used) {
          assert Stuck(scopes, root, i);
        } else {
          assert forall k :: 0 <= k < |rest| ==> rest[k] == tasks[i + 1 + k];
          AllocateEnds(rest, root, many, used + [Choose(tasks[i], root, many, used).value]);
        }
      } else {
        assert used + [scopes[i]] == scopes[..i + 1];
        DisjointSnoc(used, scopes[i]);
        HangsFrom(tasks, root, many, i + 1);
      }
    }
  }

  /** The first of the scopes that overlaps with an earlier one comes after one that covers the root. */
  ghost predicate Hangs(scopes: seq<string>, root: string) {
    exists j :: 0 <= j < |scopes| && Stuck(scopes, root, j)
  }

  /** Whether the allocation hangs can be told from the scopes that the tasks ask for. */
  lemma HangsIff(tasks: seq<Task>, root: string)
    requires PlainScope(root) && forall k :: 0 <= k < |tasks| ==> CleanName(tasks[k].name)
    ensures Allocate(tasks, root, |tasks| > 1, []).None? <==> Hangs(BaseScopes(tasks, root, |tasks| > 1), root)
  {
    hide CleanName, Allocate, Stuck, BaseScope;
    var scopes := BaseScopes(tasks, root, |tasks| > 1);
    assert tasks[0..] == tasks && scopes[..0] == [];
    HangsFrom(tasks, root, |tasks| > 1, 0);
  }

  const DEFAULT_SCOPE_ROOT := "codex-rs"

  lemma DefaultRootIsPlain()
    ensures PlainScope(DEFAULT_SCOPE_ROOT)
  {
  }

  lemma FirstBaseScope(tasks: seq<Task>, root: string, many: bool)
    ensures |BaseScopes(tasks, root, many)| == |tasks|
    ensures tasks != [] ==> BaseScopes(tasks, root, many)[0] == BaseScope(tasks[0], root, many)
  {
  }

  lemma FirstTakesAll(scopes: seq<string>, j: nat)
    requires j < |scopes| && Stuck(scopes, DEFAULT_SCOPE_ROOT, j)
    ensures j > 0 && CanonicalScope(scopes[0]) == ""
  {
    hide CanonicalScope, Blocked;
    var before := scopes[..j];
    var i :| 0 <= i < |before| && Covers(DEFAULT_SCOPE_ROOT, before[i]);
    assert CanonicalScope(before[i]) == "";
    assert ScopesOverlap(before[0], before[i]);
  }

  lemma WholeFirstScope(scopes: seq<string>)
    ensures Hangs(scopes, DEFAULT_SCOPE_ROOT) <==> |scopes| > 1 && CanonicalScope(scopes[0]) == ""
  {
    if |scopes| > 1 && CanonicalScope(scopes[0]) == "" {
      hide CanonicalScope;
      var before := scopes[..1];
      assert before[0] == scopes[0];
      assert ScopesOverlap(scopes[1], before[0]) && Covers(DEFAULT_SCOPE_ROOT, before[0]);
      assert Stuck(scopes, DEFAULT_SCOPE_ROOT, 1);
    }
    hide CanonicalScope, Stuck;
    if Hangs(scopes, DEFAULT_SCOPE_ROOT) {
      var j :| 0 <= j < |scopes| && Stuck(scopes, DEFAULT_SCOPE_ROOT, j);
      FirstTakesAll(scopes, j);
    }
  }

  /** With the default root, the allocation hangs exactly when there are several tasks and the first one
      asks for the whole repository. */
  lemma HangsIffFirstTakesAll(tasks: seq<Task>)
    requires forall k :: 0 <= k < |tasks| ==> CleanName(tasks[k].name)
    ensures Allocate(tasks, DEFAULT_SCOPE_ROOT, |tasks| > 1, []).None? <==>
            |tasks| > 1 && CanonicalScope(BaseScope(tasks[0], DEFAULT_SCOPE_ROOT, true)) == ""
  {
    hide *;
    DefaultRootIsPlain();
    HangsIff(tasks, DEFAULT_SCOPE_ROOT);
    WholeFirstScope(BaseScopes(tasks, DEFAULT_SCOPE_ROOT, |tasks| > 1));
    FirstBaseScope(tasks, DEFAULT_SCOPE_ROOT, |tasks| > 1);
  }

  // ---------- Paths ----------

  predicate InScope(path: string, scope: string) {
    var canonical := CanonicalScope(scope);
    var rel := Strip(ForwardSlashes(path), IS_SLASH);
    || canonical == ""
    || Under(rel, canonical)
    || Under(rel, ROOT_PREFIX + canonical)
    || (ROOT_PREFIX <= rel && Under(rel[|ROOT_PREFIX|..], canonical))
  }

  /** The scope is written as if it were inside a second directory of the root's own name. */
  predicate Doubled(canonical: string) {
    canonical == "codex-rs" || ROOT_PREFIX <= canonical
  }

  /** The paths of a proper scope, in the two forms the code compares. */
  predicate Holds(canonical: string, rel: string) {
    Under(rel, canonical) || Under(rel, ROOT_PREFIX + canonical)
  }

  lemma UnderCommonPrefix(prefix: string, a: string, b: string)
    ensures Under(prefix + a, prefix + b) <==> Under(a, b)
  {
    assert prefix + b + "/" == prefix + (b + "/");
    assert (prefix + a)[|prefix|..] == a && (prefix + b)[|prefix|..] == b;
    if prefix + b + "/" <= prefix + a {
      assert a[..|b| + 1] == (prefix + a)[|prefix|..|prefix| + |b| + 1] == b + "/";
    }
    if b + "/" <= a {
      assert prefix + a == prefix + b + "/" + a[|b| + 1..];
    }
  }

  /** Two scopes above the same path are nested. */
  lemma CommonPathNests(path: string, a: string, b: string)
    requires Under(path, a) && Under(path, b)
    ensures Under(a, b) || Under(b, a)
  {
    assert a <= path && b <= path;
    if |a| < |b| {
      assert b[..|a|] == a;
      assert path[|a|] == '/' && b[|a|] == '/';
      assert a + "/" <= b;
    } else if |b| < |a| {
      assert a[..|b|] == b;
      assert path[|b|] == '/' && a[|b|] == '/';
      assert b + "/" <= a;
    } else {
      assert a == b;
    }
  }

  /** The last comparison of the code repeats the one before it. */
  lemma InScopeIsHolds(path: string, scope: string)
    requires CanonicalScope(scope) != ""
    ensures InScope(path, scope) <==> Holds(CanonicalScope(scope), Strip(ForwardSlashes(path), IS_SLASH))
  {
    hide CanonicalScope, Strip, Under;
    var rel := Strip(ForwardSlashes(path), IS_SLASH);
    if ROOT_PREFIX <= rel {
      assert rel == ROOT_PREFIX + rel[|ROOT_PREFIX|..];
      UnderCommonPrefix(ROOT_PREFIX, rel[|ROOT_PREFIX|..], CanonicalScope(scope));
    }
  }

  /** Two proper scopes hold a common path only if they overlap, or one overlaps with the other's long
      form. */
  lemma CommonPathOverlaps(rel: string, a: string, b: string)
    requires Holds(a, rel) && Holds(b, rel)
    ensures Overlap(a, b) || Overlap(a, ROOT_PREFIX + b) || Overlap(ROOT_PREFIX + a, b)
  {
    hide Under;
    var la, lb := ROOT_PREFIX + a, ROOT_PREFIX + b;
    if Under(rel, a) && Under(rel, b) {
      CommonPathNests(rel, a, b);
    } else if Under(rel, a) && Under(rel, lb) {
      CommonPathNests(rel, a, lb);
    } else if Under(rel, la) && Under(rel, b) {
      CommonPathNests(rel, la, b);
    } else {
      CommonPathNests(rel, la, lb);
      UnderCommonPrefix(ROOT_PREFIX, a, b);
      UnderCommonPrefix(ROOT_PREFIX, b, a);
    }
  }

  /** A scope that overlaps with a long form is doubled. */
  lemma LongFormOverlapIsDoubled(a: string, b: string)
    requires a != "" && Overlap(a, ROOT_PREFIX + b)
    ensures Doubled(a)
  {
    var long := ROOT_PREFIX + b;
    assert forall p :: 0 <= p < 8 ==> ROOT_PREFIX[p] != '/';
    if a + "/" <= long {
      assert long[|a|] == '/';
      assert |a| >= 8;
      assert a[..8] == long[..8] == "codex-rs";
      if |a| > 8 {
        assert a[8] == long[8] == '/';
        assert a == long[..|a|];
        assert ROOT_PREFIX <= a;
      }
    } else {
      assert long <= a;
    }
  }

  /** Canonical scopes hold no backslash and do not end in a slash. */
  lemma CanonicalScopeFacts(scope: string)
    ensures '\\' !in CanonicalScope(scope)
    ensures CanonicalScope(scope) != "" ==> CanonicalScope(scope)[|CanonicalScope(scope)| - 1] != '/'
  {
    var slashed := ForwardSlashes(Strip(scope, IS_SPACE));
    ForwardSlashesFacts(Strip(scope, IS_SPACE));
    StripIsSlice(slashed, IS_SLASH);
    var bare := Strip(slashed, IS_SLASH);
    BeforeGlobIsPrefix(bare);
    StripRightIsPrefix(BeforeGlob(bare), IS_SLASH);
    hide Strip, StripRight, ForwardSlashes, BeforeGlob, HasGlob;
    var normal := NormalizeScope(scope);
    assert '\\' !in normal && (normal != "" ==> normal[|normal| - 1] != '/');
  }

  lemma PlainPathStays(rel: string)
    requires rel != "" && rel[0] != '/' && rel[|rel| - 1] != '/' && '\\' !in rel
    ensures Strip(ForwardSlashes(rel), IS_SLASH) == rel
  {
    ForwardSlashesFacts(rel);
  }

  /** Where a scope overlaps with the other's long form, the lower of the two is a path of both. */
  lemma OverlapHoldsPath(a: string, b: string) returns (path: string)
    requires CanonicalScope(a) != "" && CanonicalScope(b) != ""
    requires Overlap(CanonicalScope(a), ROOT_PREFIX + CanonicalScope(b))
    ensures InScope(path, a) && InScope(path, b)
  {
    CanonicalScopeFacts(a);
    CanonicalScopeFacts(b);
    hide CanonicalScope, Strip, Doubled;
    var ca, long := CanonicalScope(a), ROOT_PREFIX + CanonicalScope(b);
    path := if Under(ca, long) then ca else long;
    assert long <= path && long[0] == 'c';
    assert path[0] == 'c';
    PlainPathStays(path);
    InScopeIsHolds(path, a);
    InScopeIsHolds(path, b);
  }

  /** Two scopes that do not overlap hold a common path exactly when one overlaps with the other's long
      form. */
  lemma SharedPathIff(a: string, b: string)
    requires !ScopesOverlap(a, b)
    ensures (exists path :: InScope(path, a) && InScope(path, b)) <==>
            || Overlap(CanonicalScope(a), ROOT_PREFIX + CanonicalScope(b))
            || Overlap(ROOT_PREFIX + CanonicalScope(a), CanonicalScope(b))
  {
    hide CanonicalScope, InScope;
    var ca, cb := CanonicalScope(a), CanonicalScope(b);
    if Overlap(ca, ROOT_PREFIX + cb) {
      var path := OverlapHoldsPath(a, b);
    } else if Overlap(ROOT_PREFIX + ca, cb) {
      var path := OverlapHoldsPath(b, a);
    } else {
      forall path
        ensures !(InScope(path, a) && InScope(path, b))
      {
        if InScope(path, a) && InScope(path, b) {
          InScopeIsHolds(path, a);
          InScopeIsHolds(path, b);
          CommonPathOverlaps(Strip(ForwardSlashes(path), IS_SLASH), ca, cb);
        }
      }
    }
  }

  /** Scopes that are not doubled share no path once they do not overlap. */
  lemma DisjointScopesShareNoPath(a: string, b: string, path: string)
    requires !ScopesOverlap(a, b)
    requires !Doubled(CanonicalScope(a)) && !Doubled(CanonicalScope(b))
    ensures !(InScope(path, a) && InScope(path, b))
  {
    hide CanonicalScope, InScope, Doubled;
    SharedPathIff(a, b);
    var ca, cb := CanonicalScope(a), CanonicalScope(b);
    if Overlap(ca, ROOT_PREFIX + cb) {
      LongFormOverlapIsDoubled(ca, cb);
    } else if Overlap(ROOT_PREFIX + ca, cb) {
      LongFormOverlapIsDoubled(cb, ca);
    }
  }

  lemma LongFormIsPlain(scope: string)
    requires PlainScope(scope)
    ensures PlainScope(ROOT_PREFIX + scope)
  {
    var root := ROOT_PREFIX;
    assert forall i :: 0 <= i < |root| ==> !IsGlob(root[i]);
    var long := root + scope;
    forall i | 0 <= i < |long|
      ensures !IsGlob(long[i])
    {
      assert long[i] == if i < |root| then root[i] else scope[i - |root|];
    }
  }

  /** The canonical form of a long form is the scope itself. */
  lemma LongFormCanonical(scope: string)
    requires PlainScope(scope)
    ensures CanonicalScope(ROOT_PREFIX + scope) == scope
  {
    LongFormIsPlain(scope);
    NormalizePlain(ROOT_PREFIX + scope);
    hide NormalizeScope, PlainScope;
    var long := ROOT_PREFIX + scope;
    assert long[8] == '/' && ROOT_PREFIX <= long;
    assert long[|ROOT_PREFIX|..] == scope;
  }

  /** A doubled scope passes the validation beside the scope that holds the same paths. */
  lemma DoubledScopesShareAPath(scope: string)
    requires PlainScope(scope) && !Doubled(scope)
    ensures !ScopesOverlap(ROOT_PREFIX + (ROOT_PREFIX + scope), scope)
    ensures exists path :: InScope(path, ROOT_PREFIX + (ROOT_PREFIX + scope)) && InScope(path, scope)
  {
    var long := ROOT_PREFIX + scope;
    LongFormIsPlain(scope);
    LongFormCanonical(long);
    NormalizePlain(scope);
    assert CanonicalScope(scope) == scope;
    assert scope != "";
    hide NormalizeScope, PlainScope, CanonicalScope, InScope, Doubled;
    if Overlap(scope, long) {
      LongFormOverlapIsDoubled(scope, scope);
    }
    SharedPathIff(ROOT_PREFIX + long, scope);
  }
}
