/** `apply_replacements`: the in-place, back-to-front edit of a file's lines, and the left-to-right
    splice it amounts to when the edits do not overlap. */
module Replacements {

  datatype Replacement = Replacement(start: nat, oldLen: nat, newLines: seq<string>)

  // ---------- Lists of edits ----------

  predicate SortedByStart(edits: seq<Replacement>) {
    forall i, j :: 0 <= i < j < |edits| ==> edits[i].start <= edits[j].start
  }

  predicate StartsWithin(edits: seq<Replacement>, n: nat) {
    forall i :: 0 <= i < |edits| ==> edits[i].start <= n
  }

  predicate InBounds(edits: seq<Replacement>, n: nat) {
    forall i :: 0 <= i < |edits| ==> edits[i].start + edits[i].oldLen <= n
  }

  /** Each edit ends before the next one starts; zero-length edits may share a start. */
  predicate Disjoint(edits: seq<Replacement>) {
    forall i, j :: 0 <= i < j < |edits| ==> edits[i].start + edits[i].oldLen <= edits[j].start
  }

  lemma DisjointIsSorted(edits: seq<Replacement>, n: nat)
    requires Disjoint(edits) && InBounds(edits, n)
    ensures SortedByStart(edits) && StartsWithin(edits, n)
  {
    forall i, j | 0 <= i < j < |edits|
      ensures edits[i].start <= edits[j].start
    {
      assert edits[i].start + edits[i].oldLen <= edits[j].start;
    }
  }

  /** The edits after the first are again disjoint, and all start at or after its end. */
  lemma DisjointTail(edits: seq<Replacement>, n: nat)
    requires Disjoint(edits) && InBounds(edits, n) && edits != []
    ensures Disjoint(edits[1..]) && InBounds(edits[1..], n)
    ensures SortedByStart(edits[1..]) && StartsWithin(edits[1..], n)
    ensures edits[0].start + edits[0].oldLen <= n
    ensures |edits| > 1 ==> edits[0].start + edits[0].oldLen <= edits[1..][0].start
  {
    assert forall i :: 0 <= i < |edits| - 1 ==> edits[1..][i] == edits[i + 1];
    DisjointIsSorted(edits[1..], n);
  }

  // ---------- What the loop computes ----------

  function Min(a: nat, b: nat): nat {
    if a < b then a else b
  }

  /** One edit: removal stops at the end of the file, as the loop's bounds check makes it. */
  function ApplyOne(lines: seq<string>, edit: Replacement): seq<string>
    requires edit.start <= |lines|
  {
    lines[..edit.start] + edit.newLines + lines[Min(edit.start + edit.oldLen, |lines|)..]
  }

  /** The last edit first. Lines before the first edit are never reached, so every start stays valid. */
  function ApplyFromEnd(lines: seq<string>, edits: seq<Replacement>): (result: seq<string>)
    requires SortedByStart(edits) && StartsWithin(edits, |lines|)
    ensures edits == [] ==> result == lines
    ensures edits != [] ==> edits[0].start <= |result| && result[..edits[0].start] == lines[..edits[0].start]
  {
    if edits == [] then lines
    else
      assert edits[0].start <= |lines|;
      var later := ApplyFromEnd(lines, edits[1..]);
      assert |edits| > 1 ==> edits[0].start <= edits[1].start && later[..edits[1].start] == lines[..edits[1].start];
      assert later[..edits[0].start] == lines[..edits[0].start] by {
        if |edits| > 1 {
          assert later[..edits[1].start][..edits[0].start] == later[..edits[0].start];
          assert lines[..edits[1].start][..edits[0].start] == lines[..edits[0].start];
        }
      }
      ApplyOne(later, edits[0])
  }

  /** The two inner loops: lines are removed one at a time, then inserted one at a time. */
  method ApplyEdit(before: seq<string>, edit: Replacement) returns (lines: seq<string>)
    requires edit.start <= |before|
    ensures lines == ApplyOne(before, edit)
  {
    lines := before;
    var removed := 0;
    while removed < edit.oldLen
      invariant 0 <= removed <= edit.oldLen
      invariant lines == before[..edit.start] + before[Min(edit.start + removed, |before|)..]
    {
      if edit.start < |lines| {
        lines := lines[..edit.start] + lines[edit.start + 1..];
      }
      removed := removed + 1;
    }
    ghost var rest := before[Min(edit.start + edit.oldLen, |before|)..];
    var offset := 0;
    while offset < |edit.newLines|
      invariant 0 <= offset <= |edit.newLines|
      invariant lines == before[..edit.start] + edit.newLines[..offset] + rest
    {
      lines := lines[..edit.start + offset] + [edit.newLines[offset]] + lines[edit.start + offset..];
      offset := offset + 1;
      assert edit.newLines[..offset] == edit.newLines[..offset - 1] + [edit.newLines[offset - 1]];
    }
    assert edit.newLines[..offset] == edit.newLines;
  }

  /** The outer loop: the edits from the last one back, each on the lines the later ones left. */
  method ApplyReplacements(original: seq<string>, edits: seq<Replacement>) returns (lines: seq<string>)
    requires SortedByStart(edits) && StartsWithin(edits, |original|)
    ensures lines == ApplyFromEnd(original, edits)
    ensures Disjoint(edits) && InBounds(edits, |original|) ==> lines == Splice(original, edits, 0)
  {
    lines := original;
    var i := |edits|;
    while i > 0
      invariant 0 <= i <= |edits|
      invariant lines == ApplyFromEnd(original, edits[i..])
    {
      i := i - 1;
      assert edits[i..][1..] == edits[i + 1..] && edits[i..][0] == edits[i];
      assert i + 1 < |edits| ==> edits[i + 1..][0] == edits[i + 1];
      lines := ApplyEdit(lines, edits[i]);
    }
    assert edits[0..] == edits;
    if Disjoint(edits) && InBounds(edits, |original|) {
      BackToFrontIsSplice(original, edits);
    }
  }

  // ---------- What it means ----------

  /** From `pos` on: untouched lines up to the next edit, its new lines, and so on to the end. */
  function Splice(original: seq<string>, edits: seq<Replacement>, pos: nat): (result: seq<string>)
    requires Disjoint(edits) && InBounds(edits, |original|) && pos <= |original|
    requires edits != [] ==> pos <= edits[0].start
  {
    if edits == [] then original[pos..]
    else
      var edit := edits[0];
      original[pos..edit.start] + edit.newLines + Splice(original, edits[1..], edit.start + edit.oldLen)
  }

  lemma EditBoundary(original: seq<string>, edit: Replacement, tail: seq<string>)
    requires edit.start + edit.oldLen <= |original|
    ensures ApplyOne(original[..edit.start + edit.oldLen] + tail, edit) == original[..edit.start] + edit.newLines + tail
  {
    var later := original[..edit.start + edit.oldLen] + tail;
    assert later[..edit.start] == original[..edit.start];
    assert later[edit.start + edit.oldLen..] == tail;
  }

  lemma Rejoin(original: seq<string>, pos: nat, start: nat, added: seq<string>, tail: seq<string>)
    requires pos <= start <= |original|
    ensures original[..start] + added + tail == original[..pos] + (original[pos..start] + added + tail)
  {
    assert original[..start] == original[..pos] + original[pos..start];
  }

  lemma {:induction false} BackToFrontFrom(original: seq<string>, edits: seq<Replacement>, pos: nat)
    requires Disjoint(edits) && InBounds(edits, |original|) && pos <= |original|
    requires edits != [] ==> pos <= edits[0].start
    requires SortedByStart(edits) && StartsWithin(edits, |original|)
    ensures ApplyFromEnd(original, edits) == original[..pos] + Splice(original, edits, pos)
  {
    if edits == [] {
      assert original[..pos] + original[pos..] == original;
    } else {
      var edit := edits[0];
      var next := edit.start + edit.oldLen;
      DisjointTail(edits, |original|);
      BackToFrontFrom(original, edits[1..], next);
      var tail := Splice(original, edits[1..], next);
      var later := ApplyFromEnd(original, edits[1..]);
      assert later == original[..next] + tail;
      EditBoundary(original, edit, tail);
      Rejoin(original, pos, edit.start, edit.newLines, tail);
    }
  }

  /** Editing in place from the back equals splicing from the front. */
  lemma BackToFrontIsSplice(original: seq<string>, edits: seq<Replacement>)
    requires Disjoint(edits) && InBounds(edits, |original|)
    ensures SortedByStart(edits) && StartsWithin(edits, |original|)
    ensures ApplyFromEnd(original, edits) == Splice(original, edits, 0)
  {
    DisjointIsSorted(edits, |original|);
    BackToFrontFrom(original, edits, 0);
    assert original[..0] == [];
  }

  // ---------- Conservation: length, survivors and order ----------

  function RemovedLines(edits: seq<Replacement>): nat {
    if edits == [] then 0 else edits[0].oldLen + RemovedLines(edits[1..])
  }

  function AddedLines(edits: seq<Replacement>): nat {
    if edits == [] then 0 else |edits[0].newLines| + AddedLines(edits[1..])
  }

  /** No edit removes line `j`. */
  predicate Untouched(edits: seq<Replacement>, j: nat) {
    forall i :: 0 <= i < |edits| ==> !(edits[i].start <= j < edits[i].start + edits[i].oldLen)
  }

  /** By how much the edits that end at or before line `j` move it. */
  function Shift(edits: seq<Replacement>, j: nat): int {
    if edits == [] then 0
    else (if edits[0].start + edits[0].oldLen <= j then |edits[0].newLines| - edits[0].oldLen else 0)
         + Shift(edits[1..], j)
  }

  lemma {:induction false} SpliceLength(original: seq<string>, edits: seq<Replacement>, pos: nat)
    requires Disjoint(edits) && InBounds(edits, |original|) && pos <= |original|
    requires edits != [] ==> pos <= edits[0].start
    ensures |Splice(original, edits, pos)| == |original| - pos - RemovedLines(edits) + AddedLines(edits)
  {
    if edits == [] {
    } else {
      SpliceLength(original, edits[1..], edits[0].start + edits[0].oldLen);
    }
  }

  lemma {:induction false} NoShiftBefore(edits: seq<Replacement>, j: nat)
    requires forall i :: 0 <= i < |edits| ==> j < edits[i].start
    ensures Shift(edits, j) == 0
  {
    if edits == [] {
    } else {
      assert j < edits[0].start;
      forall i | 0 <= i < |edits| - 1
        ensures j < edits[1..][i].start
      {
        assert j < edits[i + 1].start;
      }
      NoShiftBefore(edits[1..], j);
    }
  }

  /** A line in front of every edit is not moved. */
  lemma NoShiftInFront(edits: seq<Replacement>, n: nat, j: nat)
    requires Disjoint(edits) && InBounds(edits, n) && edits != [] && j < edits[0].start
    ensures Shift(edits, j) == 0
  {
    DisjointIsSorted(edits, n);
    forall i | 0 <= i < |edits|
      ensures j < edits[i].start
    {
      assert i > 0 ==> edits[0].start <= edits[i].start;
    }
    NoShiftBefore(edits, j);
  }

  lemma UntouchedTail(edits: seq<Replacement>, j: nat)
    requires Untouched(edits, j) && edits != []
    ensures Untouched(edits[1..], j)
    ensures j < edits[0].start || edits[0].start + edits[0].oldLen <= j
  {
    assert forall i :: 0 <= i < |edits| - 1 ==> edits[1..][i] == edits[i + 1];
  }

  lemma {:induction false} SurvivorFrom(original: seq<string>, edits: seq<Replacement>, pos: nat, j: nat)
    requires Disjoint(edits) && InBounds(edits, |original|) && pos <= j < |original|
    requires edits != [] ==> pos <= edits[0].start
    requires Untouched(edits, j)
    ensures var at := j - pos + Shift(edits, j);
            0 <= at < |Splice(original, edits, pos)| && Splice(original, edits, pos)[at] == original[j]
  {
    if edits == [] {
    } else {
      var edit := edits[0];
      var next := edit.start + edit.oldLen;
      DisjointTail(edits, |original|);
      UntouchedTail(edits, j);
      if j < edit.start {
        NoShiftInFront(edits, |original|, j);
      } else {
        SurvivorFrom(original, edits[1..], next, j);
        hide Disjoint, InBounds, Untouched, SortedByStart, StartsWithin;
        var tail := Splice(original, edits[1..], next);
        var at := j - next + Shift(edits[1..], j);
        var lead := original[pos..edit.start] + edit.newLines;
        assert |lead| == edit.start - pos + |edit.newLines|;
        assert (lead + tail)[|lead| + at] == tail[at];
      }
    }
  }

  /** Every line no edit removes is still there, moved by exactly the edits that end before it, and
      the file grows by what was added less what was removed. */
  lemma UntouchedLinesSurvive(original: seq<string>, edits: seq<Replacement>, j: nat)
    requires Disjoint(edits) && InBounds(edits, |original|) && j < |original| && Untouched(edits, j)
    ensures |Splice(original, edits, 0)| == |original| - RemovedLines(edits) + AddedLines(edits)
    ensures 0 <= j + Shift(edits, j) < |Splice(original, edits, 0)|
    ensures Splice(original, edits, 0)[j + Shift(edits, j)] == original[j]
  {
    SpliceLength(original, edits, 0);
    SurvivorFrom(original, edits, 0, j);
  }

  lemma {:induction false} ShiftAtLeast(edits: seq<Replacement>, pos: nat, k: nat)
    requires Disjoint(edits) && Untouched(edits, k)
    requires edits != [] ==> pos <= edits[0].start
    ensures pos <= k ==> pos <= k + Shift(edits, k)
    ensures k < pos ==> Shift(edits, k) == 0
  {
    if edits == [] {
    } else {
      var next := edits[0].start + edits[0].oldLen;
      assert forall i :: 0 <= i < |edits| - 1 ==> edits[1..][i] == edits[i + 1];
      ShiftAtLeast(edits[1..], next, k);
    }
  }

  lemma {:induction false} ShiftGrows(edits: seq<Replacement>, pos: nat, j: nat, k: nat)
    requires Disjoint(edits) && Untouched(edits, j) && Untouched(edits, k)
    requires pos <= j < k
    requires edits != [] ==> pos <= edits[0].start
    ensures j + Shift(edits, j) < k + Shift(edits, k)
  {
    if edits == [] {
    } else {
      var edit := edits[0];
      var next := edit.start + edit.oldLen;
      assert forall i :: 0 <= i < |edits| - 1 ==> edits[1..][i] == edits[i + 1];
      if next <= j {
        ShiftGrows(edits[1..], next, j, k);
      } else {
        assert j < edit.start;
        forall i | 0 <= i < |edits|
          ensures j < edits[i].start
        {
          assert i > 0 ==> next <= edits[i].start;
        }
        NoShiftBefore(edits, j);
        ShiftAtLeast(edits, edit.start, k);
      }
    }
  }

  /** Surviving lines keep their order. */
  lemma SurvivorsKeepOrder(edits: seq<Replacement>, j: nat, k: nat)
    requires Disjoint(edits) && Untouched(edits, j) && Untouched(edits, k) && j < k
    ensures j + Shift(edits, j) < k + Shift(edits, k)
  {
    ShiftGrows(edits, 0, j, k);
  }
}
