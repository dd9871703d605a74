/** Sorting by a total preorder, as the library's `sort_by` does it, and when the result is unique. */
module Sorting {

  function Insert<T>(leq: (T, T) -> bool, x: T, sorted: seq<T>): seq<T> {
    if sorted == [] || leq(x, sorted[0]) then [x] + sorted
    else [sorted[0]] + Insert(leq, x, sorted[1..])
  }

  function SortBy<T>(leq: (T, T) -> bool, s: seq<T>): seq<T> {
    if s == [] then [] else Insert(leq, s[0], SortBy(leq, s[1..]))
  }

  ghost predicate TotalPreorder<T(!new)>(leq: (T, T) -> bool) {
    && (forall a, b :: leq(a, b) || leq(b, a))
    && (forall a, b, c :: leq(a, b) && leq(b, c) ==> leq(a, c))
  }

  predicate Sorted<T>(leq: (T, T) -> bool, s: seq<T>) {
    forall i, j :: 0 <= i < j < |s| ==> leq(s[i], s[j])
  }

  /** Only equal members are equivalent in the order. */
  predicate Antisymmetric<T(==)>(leq: (T, T) -> bool, s: seq<T>) {
    forall i, j :: 0 <= i < |s| && 0 <= j < |s| && leq(s[i], s[j]) && leq(s[j], s[i]) ==> s[i] == s[j]
  }

  lemma {:induction false} InsertMembers<T>(leq: (T, T) -> bool, x: T, sorted: seq<T>)
    ensures multiset(Insert(leq, x, sorted)) == multiset{x} + multiset(sorted)
    ensures |Insert(leq, x, sorted)| == |sorted| + 1
  {
    if sorted != [] && !leq(x, sorted[0]) {
      InsertMembers(leq, x, sorted[1..]);
      assert sorted == [sorted[0]] + sorted[1..];
    }
  }

  lemma {:induction false} SortMembers<T>(leq: (T, T) -> bool, s: seq<T>)
    ensures multiset(SortBy(leq, s)) == multiset(s)
    ensures |SortBy(leq, s)| == |s|
  {
    if s == [] {
    } else {
      SortMembers(leq, s[1..]);
      InsertMembers(leq, s[0], SortBy(leq, s[1..]));
      assert s == [s[0]] + s[1..];
    }
  }

  lemma SameMembers<T>(a: seq<T>, b: seq<T>, x: T)
    requires multiset(a) == multiset(b)
    ensures x in a <==> x in b
  {
    assert x in a <==> x in multiset(a);
    assert x in b <==> x in multiset(b);
  }

  lemma TwiceInMultiset<T>(s: seq<T>, i: nat, j: nat)
    requires i < j < |s| && s[i] == s[j]
    ensures multiset(s)[s[i]] >= 2
  {
    var front, back := s[..j], s[j..];
    assert s == front + back;
    assert front[i] in multiset(front) && back[0] in multiset(back);
    assert multiset(s) == multiset(front) + multiset(back);
  }

  lemma OnceInMultiset<T>(s: seq<T>, k: nat)
    requires k < |s| && forall i, j :: 0 <= i < j < |s| ==> s[i] != s[j]
    ensures multiset(s)[s[k]] == 1
  {
    var front, back := s[..k], s[k + 1..];
    assert s == front + [s[k]] + back;
    assert s[k] !in front && s[k] !in back;
    assert s[k] !in multiset(front) && s[k] !in multiset(back);
    assert multiset(s) == multiset(front) + multiset{s[k]} + multiset(back);
  }

  lemma {:induction false} InsertSorted<T(!new)>(leq: (T, T) -> bool, x: T, sorted: seq<T>)
    requires TotalPreorder(leq) && Sorted(leq, sorted)
    ensures Sorted(leq, Insert(leq, x, sorted))
  {
    if sorted != [] && !leq(x, sorted[0]) {
      var rest := sorted[1..];
      InsertSorted(leq, x, rest);
      InsertMembers(leq, x, rest);
      var tail := Insert(leq, x, rest);
      forall j | 0 <= j < |tail|
        ensures leq(sorted[0], tail[j])
      {
        SameMembers(tail, [x] + rest, tail[j]);
        assert multiset([x] + rest) == multiset{x} + multiset(rest);
        assert tail[j] == x || tail[j] in rest;
      }
    }
  }

  lemma {:induction false} SortSorted<T(!new)>(leq: (T, T) -> bool, s: seq<T>)
    requires TotalPreorder(leq)
    ensures Sorted(leq, SortBy(leq, s))
  {
    if s == [] {
    } else {
      SortSorted(leq, s[1..]);
      InsertSorted(leq, s[0], SortBy(leq, s[1..]));
    }
  }

  /** Sorting a sorted sequence changes nothing. */
  lemma {:induction false} SortOfSorted<T>(leq: (T, T) -> bool, s: seq<T>)
    requires Sorted(leq, s)
    ensures SortBy(leq, s) == s
  {
    if s == [] {
    } else {
      assert Sorted(leq, s[1..]);
      SortOfSorted(leq, s[1..]);
      if |s| > 1 {
        assert leq(s[0], s[1]);
      }
      assert s == [s[0]] + s[1..];
    }
  }

  lemma AntisymmetricTail<T>(leq: (T, T) -> bool, a: seq<T>)
    requires a != [] && Antisymmetric(leq, a) && Sorted(leq, a)
    ensures Antisymmetric(leq, a[1..]) && Sorted(leq, a[1..])
  {
    assert forall i :: 0 <= i < |a| - 1 ==> a[1..][i] == a[i + 1];
  }

  lemma SameHead<T(!new)>(leq: (T, T) -> bool, a: seq<T>, b: seq<T>)
    requires TotalPreorder(leq)
    requires Sorted(leq, a) && Sorted(leq, b) && multiset(a) == multiset(b)
    requires Antisymmetric(leq, a) && a != [] && b != []
    ensures a[0] == b[0]
  {
    assert a[0] in a && b[0] in b;
    SameMembers(a, b, a[0]);
    SameMembers(a, b, b[0]);
    var i :| 0 <= i < |a| && a[i] == b[0];
    var j :| 0 <= j < |b| && b[j] == a[0];
    assert leq(a[0], a[i]) && leq(b[0], b[j]);
  }

  lemma SameTails<T>(a: seq<T>, b: seq<T>)
    requires multiset(a) == multiset(b) && a != [] && b != [] && a[0] == b[0]
    ensures multiset(a[1..]) == multiset(b[1..])
  {
    assert a == [a[0]] + a[1..] && b == [b[0]] + b[1..];
    assert multiset(a[1..]) == multiset(a) - multiset{a[0]};
    assert multiset(b[1..]) == multiset(b) - multiset{b[0]};
  }

  lemma SameLength<T>(a: seq<T>, b: seq<T>)
    requires multiset(a) == multiset(b)
    ensures |a| == |b|
  {
    assert |multiset(a)| == |a| && |multiset(b)| == |b|;
  }

  /** Two sorted sequences with the same members are equal. */
  lemma {:induction false} SortedUnique<T(!new)>(leq: (T, T) -> bool, a: seq<T>, b: seq<T>)
    requires TotalPreorder(leq)
    requires Sorted(leq, a) && Sorted(leq, b) && multiset(a) == multiset(b)
    requires Antisymmetric(leq, a)
    ensures a == b
  {
    SameLength(a, b);
    if a == [] {
    } else {
      SameHead(leq, a, b);
      SameTails(a, b);
      AntisymmetricTail(leq, a);
      assert Sorted(leq, b[1..]);
      SortedUnique(leq, a[1..], b[1..]);
      assert a == [a[0]] + a[1..] && b == [b[0]] + b[1..];
    }
  }

  /** Sorting forgets the order and nothing else. */
  lemma SortEqualIff<T(!new)>(leq: (T, T) -> bool, a: seq<T>, b: seq<T>)
    requires TotalPreorder(leq) && Antisymmetric(leq, a)
    ensures SortBy(leq, a) == SortBy(leq, b) <==> multiset(a) == multiset(b)
  {
    SortMembers(leq, a);
    SortMembers(leq, b);
    SortSorted(leq, a);
    SortSorted(leq, b);
    if multiset(a) == multiset(b) {
      var sa := SortBy(leq, a);
      forall i, j | 0 <= i < |sa| && 0 <= j < |sa| && leq(sa[i], sa[j]) && leq(sa[j], sa[i])
        ensures sa[i] == sa[j]
      {
        SameMembers(sa, a, sa[i]);
        SameMembers(sa, a, sa[j]);
        var k :| 0 <= k < |a| && a[k] == sa[i];
        var l :| 0 <= l < |a| && a[l] == sa[j];
        assert leq(a[k], a[l]) && leq(a[l], a[k]);
      }
      SortedUnique(leq, sa, SortBy(leq, b));
    }
  }

  // ---------- The order of strings ----------

  /** `str::cmp`: the order of code points, which is also that of the bytes in UTF-8. */
  predicate StringLeq(a: string, b: string) {
    a == "" || (b != "" && (a[0] < b[0] || (a[0] == b[0] && StringLeq(a[1..], b[1..]))))
  }

  lemma {:induction false} StringLeqTotal(a: string, b: string)
    ensures StringLeq(a, b) || StringLeq(b, a)
  {
    if a != "" && b != "" && a[0] == b[0] {
      StringLeqTotal(a[1..], b[1..]);
    }
  }

  lemma {:induction false} StringLeqTransitive(a: string, b: string, c: string)
    requires StringLeq(a, b) && StringLeq(b, c)
    ensures StringLeq(a, c)
  {
    if a != "" && a[0] == b[0] && b[0] == c[0] {
      StringLeqTransitive(a[1..], b[1..], c[1..]);
    }
  }

  lemma {:induction false} StringLeqAntisymmetric(a: string, b: string)
    requires StringLeq(a, b) && StringLeq(b, a)
    ensures a == b
  {
    if a == "" {
    } else {
      StringLeqAntisymmetric(a[1..], b[1..]);
      assert a == [a[0]] + a[1..] && b == [b[0]] + b[1..];
    }
  }
}
