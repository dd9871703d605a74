/** `canonicalize_json`: object keys sorted, and arrays sorted when every element has a sort key. */
module CanonicalJson {
  import opened Wrappers
  import opened Json
  import opened Sorting
  import opened JsonText

  // ---------- Canonical form ----------

  /** `schema_array_item_sort_key`. */
  function SortKey(item: Json): Option<string> {
    match item
    case Null => Some("null")
    case Bool(b) => Some(if b then "b:true" else "b:false")
    case Number(text) => Some("n:" + text)
    case Str(s) => Some("s:" + s)
    case Obj(fields) =>
      (match (Get(fields, "$ref"), Get(fields, "title"))
       case (Some(Str(reference)), _) => Some("ref:" + reference)
       case (_, Some(Str(title))) => Some("title:" + title)
       case _ => None)
    case Arr(_) => None
  }

  predicate AllKeyed(items: seq<Json>) {
    forall i :: 0 <= i < |items| ==> SortKey(items[i]).Some?
  }

  function KeyOf(item: Json): string {
    if SortKey(item).Some? then SortKey(item).value else ""
  }

  /** Items are compared by sort key and then by their serialization. */
  predicate ItemLeq(ser: Json -> string, a: Json, b: Json) {
    if KeyOf(a) == KeyOf(b) then StringLeq(ser(a), ser(b)) else StringLeq(KeyOf(a), KeyOf(b))
  }

  function ItemOrder(ser: Json -> string): (Json, Json) -> bool {
    (a: Json, b: Json) => ItemLeq(ser, a, b)
  }

  predicate FieldLeq(a: Field, b: Field) {
    StringLeq(a.key, b.key)
  }

  function FieldOrder(): (Field, Field) -> bool {
    (a: Field, b: Field) => FieldLeq(a, b)
  }

  function CanonicalItems(ser: Json -> string, items: seq<Json>): (r: seq<Json>)
    ensures |r| == |items|
    decreases items, 1
  {
    if items == [] then [] else [Canonical(ser, items[0])] + CanonicalItems(ser, items[1..])
  }

  function CanonicalFields(ser: Json -> string, fields: seq<Field>): (r: seq<Field>)
    ensures |r| == |fields|
    ensures forall i :: 0 <= i < |r| ==> r[i].key == fields[i].key
    decreases fields, 1
  {
    if fields == [] then []
    else [Field(fields[0].key, Canonical(ser, fields[0].value))] + CanonicalFields(ser, fields[1..])
  }

  function Canonical(ser: Json -> string, value: Json): Json
    decreases value, 0
  {
    match value
    case Arr(items) =>
      var canonical := CanonicalItems(ser, items);
      Arr(if AllKeyed(canonical) then SortBy(ItemOrder(ser), canonical) else canonical)
    case Obj(fields) => Obj(SortBy(FieldOrder(), CanonicalFields(ser, fields)))
    case _ => value
  }

  predicate WellFormedItems(items: seq<Json>)
    decreases items, 1
  {
    items == [] || (WellFormed(items[0]) && WellFormedItems(items[1..]))
  }

  predicate WellFormedFields(fields: seq<Field>)
    decreases fields, 1
  {
    fields == [] || (WellFormed(fields[0].value) && WellFormedFields(fields[1..]))
  }

  /** Every object in the value holds each key once. */
  predicate WellFormed(value: Json)
    decreases value, 0
  {
    match value
    case Arr(items) => WellFormedItems(items)
    case Obj(fields) => UniqueKeys(fields) && WellFormedFields(fields)
    case Number(text) => IsNumberText(text)
    case _ => true
  }

  // ---------- The orders ----------

  lemma ItemLeqTransitive(ser: Json -> string, a: Json, b: Json, c: Json)
    requires ItemLeq(ser, a, b) && ItemLeq(ser, b, c)
    ensures ItemLeq(ser, a, c)
  {
    hide SortKey;
    if KeyOf(a) == KeyOf(b) && KeyOf(b) == KeyOf(c) {
      StringLeqTransitive(ser(a), ser(b), ser(c));
    } else if KeyOf(a) != KeyOf(b) && KeyOf(b) != KeyOf(c) {
      StringLeqTransitive(KeyOf(a), KeyOf(b), KeyOf(c));
      if KeyOf(a) == KeyOf(c) {
        StringLeqAntisymmetric(KeyOf(a), KeyOf(b));
      }
    }
  }

  lemma ItemOrderIsTotal(ser: Json -> string)
    ensures TotalPreorder(ItemOrder(ser))
  {
    var leq := ItemOrder(ser);
    forall a, b
      ensures leq(a, b) || leq(b, a)
    {
      StringLeqTotal(KeyOf(a), KeyOf(b));
      StringLeqTotal(ser(a), ser(b));
    }
    forall a, b, c | leq(a, b) && leq(b, c)
      ensures leq(a, c)
    {
      ItemLeqTransitive(ser, a, b, c);
    }
  }

  lemma FieldOrderIsTotal()
    ensures TotalPreorder(FieldOrder())
  {
    var leq := FieldOrder();
    forall a, b
      ensures leq(a, b) || leq(b, a)
    {
      StringLeqTotal(a.key, b.key);
    }
    forall a, b, c | leq(a, b) && leq(b, c)
      ensures leq(a, c)
    {
      StringLeqTransitive(a.key, b.key, c.key);
    }
  }

  ghost predicate Injective(ser: Json -> string) {
    forall a, b :: WellFormed(a) && WellFormed(b) && ser(a) == ser(b) ==> a == b
  }

  lemma ItemLeqAntisymmetric(ser: Json -> string, a: Json, b: Json)
    requires Injective(ser) && WellFormed(a) && WellFormed(b) && ItemLeq(ser, a, b) && ItemLeq(ser, b, a)
    ensures a == b
  {
    hide SortKey;
    if KeyOf(a) == KeyOf(b) {
      StringLeqAntisymmetric(ser(a), ser(b));
    } else {
      StringLeqAntisymmetric(KeyOf(a), KeyOf(b));
    }
  }

  lemma ItemOrderAntisymmetric(ser: Json -> string, items: seq<Json>)
    requires Injective(ser) && forall x :: x in items ==> WellFormed(x)
    ensures Antisymmetric(ItemOrder(ser), items)
  {
    var leq := ItemOrder(ser);
    forall i, j | 0 <= i < |items| && 0 <= j < |items| && leq(items[i], items[j]) && leq(items[j], items[i])
      ensures items[i] == items[j]
    {
      ItemLeqAntisymmetric(ser, items[i], items[j]);
    }
  }

  lemma FieldOrderAntisymmetric(fields: seq<Field>)
    requires UniqueKeys(fields)
    ensures Antisymmetric(FieldOrder(), fields)
  {
    var leq := FieldOrder();
    forall i, j | 0 <= i < |fields| && 0 <= j < |fields| && leq(fields[i], fields[j]) && leq(fields[j], fields[i])
      ensures fields[i] == fields[j]
    {
      StringLeqAntisymmetric(fields[i].key, fields[j].key);
      assert !(i < j) && !(j < i);
    }
  }

  // ---------- Keys survive ----------

  lemma {:induction false} CanonicalFieldsGet(ser: Json -> string, fields: seq<Field>, key: string)
    ensures Get(CanonicalFields(ser, fields), key) ==
            match Get(fields, key) { case Some(v) => Some(Canonical(ser, v)) case None => None }
  {
    if fields == [] {
    } else {
      CanonicalFieldsGet(ser, fields[1..], key);
      assert CanonicalFields(ser, fields)[1..] == CanonicalFields(ser, fields[1..]);
    }
  }

  lemma GetUnique(fields: seq<Field>, key: string, value: Json)
    requires UniqueKeys(fields)
    ensures Get(fields, key) == Some(value) <==> Field(key, value) in fields
  {
    GetIsMember(fields, key);
    if Field(key, value) in fields {
      var i :| 0 <= i < |fields| && fields[i] == Field(key, value);
      assert HasKey(fields, key);
      var j :| 0 <= j < |fields| && fields[j] == Field(key, Get(fields, key).value);
      assert !(i < j) && !(j < i);
    }
  }

  lemma UniqueKeysByMembers(a: seq<Field>, b: seq<Field>)
    requires UniqueKeys(a) && multiset(a) == multiset(b)
    ensures UniqueKeys(b)
  {
    forall i, j | 0 <= i < j < |b|
      ensures b[i].key != b[j].key
    {
      SameMembers(a, b, b[i]);
      SameMembers(a, b, b[j]);
      var k :| 0 <= k < |a| && a[k] == b[i];
      var l :| 0 <= l < |a| && a[l] == b[j];
      if k == l {
        TwiceInMultiset(b, i, j);
        OnceInMultiset(a, k);
        assert false;
      }
    }
  }

  lemma GetBySorting(a: seq<Field>, b: seq<Field>, key: string)
    requires UniqueKeys(a) && multiset(a) == multiset(b)
    ensures Get(a, key) == Get(b, key)
  {
    UniqueKeysByMembers(a, b);
    if Get(a, key).Some? {
      var v := Get(a, key).value;
      GetUnique(a, key, v);
      SameMembers(a, b, Field(key, v));
      GetUnique(b, key, v);
    } else if Get(b, key).Some? {
      var v := Get(b, key).value;
      GetUnique(b, key, v);
      SameMembers(a, b, Field(key, v));
      GetUnique(a, key, v);
    }
  }

  lemma CanonicalFieldsUnique(ser: Json -> string, fields: seq<Field>)
    requires UniqueKeys(fields)
    ensures UniqueKeys(CanonicalFields(ser, fields))
  {
  }

  lemma CanonicalObjectGet(ser: Json -> string, fields: seq<Field>, key: string)
    requires UniqueKeys(fields)
    ensures Get(Canonical(ser, Obj(fields)).fields, key) ==
            match Get(fields, key) { case Some(v) => Some(Canonical(ser, v)) case None => None }
  {
    var canonical := CanonicalFields(ser, fields);
    CanonicalFieldsUnique(ser, fields);
    SortMembers(FieldOrder(), canonical);
    GetBySorting(canonical, SortBy(FieldOrder(), canonical), key);
    CanonicalFieldsGet(ser, fields, key);
  }

  /** Canonicalizing an item does not change its sort key. */
  lemma SortKeySurvives(ser: Json -> string, item: Json)
    requires WellFormed(item)
    ensures SortKey(Canonical(ser, item)) == SortKey(item)
  {
    if item.Obj? {
      CanonicalObjectGet(ser, item.fields, "$ref");
      CanonicalObjectGet(ser, item.fields, "title");
      hide Get, SortBy, CanonicalFields, CanonicalItems, UniqueKeys;
    }
  }

  lemma AllKeyedCons(first: Json, rest: seq<Json>)
    ensures AllKeyed([first] + rest) <==> SortKey(first).Some? && AllKeyed(rest)
  {
    hide SortKey;
    var all := [first] + rest;
    assert all[0] == first;
    assert forall i :: 0 <= i < |rest| ==> all[i + 1] == rest[i];
  }

  lemma {:induction false} AllKeyedSurvives(ser: Json -> string, items: seq<Json>)
    requires WellFormedItems(items)
    ensures AllKeyed(CanonicalItems(ser, items)) <==> AllKeyed(items)
  {
    hide SortKey, WellFormed, Canonical;
    if items == [] {
    } else {
      SortKeySurvives(ser, items[0]);
      AllKeyedSurvives(ser, items[1..]);
      AllKeyedCons(items[0], items[1..]);
      AllKeyedCons(Canonical(ser, items[0]), CanonicalItems(ser, items[1..]));
      assert items == [items[0]] + items[1..];
    }
  }

  // ---------- Idempotence ----------

  lemma {:induction false} ItemsAt(ser: Json -> string, items: seq<Json>, i: nat)
    requires i < |items|
    ensures CanonicalItems(ser, items)[i] == Canonical(ser, items[i])
    ensures WellFormedItems(items) ==> WellFormed(items[i])
  {
    hide Canonical, WellFormed;
    if i > 0 {
      ItemsAt(ser, items[1..], i - 1);
    }
  }

  lemma {:induction false} FieldsAt(ser: Json -> string, fields: seq<Field>, i: nat)
    requires i < |fields|
    ensures CanonicalFields(ser, fields)[i] == Field(fields[i].key, Canonical(ser, fields[i].value))
    ensures WellFormedFields(fields) ==> WellFormed(fields[i].value)
  {
    hide Canonical, WellFormed;
    if i > 0 {
      FieldsAt(ser, fields[1..], i - 1);
    }
  }

  /** Canonicalizing leaves each of the items alone. */
  ghost predicate Settled(ser: Json -> string, items: seq<Json>) {
    forall x :: x in items ==> Canonical(ser, x) == x
  }

  ghost predicate SettledFields(ser: Json -> string, fields: seq<Field>) {
    forall f :: f in fields ==> Canonical(ser, f.value) == f.value
  }

  lemma SettledItemsStay(ser: Json -> string, items: seq<Json>)
    requires Settled(ser, items)
    ensures CanonicalItems(ser, items) == items
  {
    hide Canonical;
    forall i | 0 <= i < |items|
      ensures CanonicalItems(ser, items)[i] == items[i]
    {
      ItemsAt(ser, items, i);
      assert items[i] in items;
    }
  }

  lemma SettledFieldsStay(ser: Json -> string, fields: seq<Field>)
    requires SettledFields(ser, fields)
    ensures CanonicalFields(ser, fields) == fields
  {
    hide Canonical;
    forall i | 0 <= i < |fields|
      ensures CanonicalFields(ser, fields)[i] == fields[i]
    {
      FieldsAt(ser, fields, i);
      assert fields[i] in fields;
    }
  }

  lemma SettledArray(ser: Json -> string, canonical: seq<Json>)
    requires Settled(ser, canonical)
    ensures var sorted := if AllKeyed(canonical) then SortBy(ItemOrder(ser), canonical) else canonical;
            Canonical(ser, Arr(sorted)) == Arr(sorted)
  {
    hide SortKey;
    if AllKeyed(canonical) {
      var leq := ItemOrder(ser);
      var sorted := SortBy(leq, canonical);
      SortMembers(leq, canonical);
      ItemOrderIsTotal(ser);
      SortSorted(leq, canonical);
      forall x | x in sorted
        ensures Canonical(ser, x) == x
      {
        SameMembers(sorted, canonical, x);
      }
      SettledItemsStay(ser, sorted);
      SortOfSorted(leq, sorted);
    } else {
      SettledItemsStay(ser, canonical);
    }
  }

  lemma SettledObject(ser: Json -> string, canonical: seq<Field>)
    requires SettledFields(ser, canonical)
    ensures var sorted := SortBy(FieldOrder(), canonical);
            Canonical(ser, Obj(sorted)) == Obj(sorted)
  {
    var leq := FieldOrder();
    var sorted := SortBy(leq, canonical);
    SortMembers(leq, canonical);
    FieldOrderIsTotal();
    SortSorted(leq, canonical);
    forall f | f in sorted
      ensures Canonical(ser, f.value) == f.value
    {
      SameMembers(sorted, canonical, f);
    }
    SettledFieldsStay(ser, sorted);
    SortOfSorted(leq, sorted);
  }

  /** Canonicalizing twice is canonicalizing once. */
  lemma {:induction false} CanonicalIsIdempotent(ser: Json -> string, value: Json)
    ensures Canonical(ser, Canonical(ser, value)) == Canonical(ser, value)
    decreases value
  {
    match value
    case Arr(items) =>
      var canonical := CanonicalItems(ser, items);
      forall x | x in canonical
        ensures Canonical(ser, x) == x
      {
        var i :| 0 <= i < |canonical| && canonical[i] == x;
        ItemsAt(ser, items, i);
        CanonicalIsIdempotent(ser, items[i]);
      }
      SettledArray(ser, canonical);
    case Obj(fields) =>
      var canonical := CanonicalFields(ser, fields);
      forall f | f in canonical
        ensures Canonical(ser, f.value) == f.value
      {
        var i :| 0 <= i < |canonical| && canonical[i] == f;
        FieldsAt(ser, fields, i);
        CanonicalIsIdempotent(ser, fields[i].value);
      }
      SettledObject(ser, canonical);
    case _ =>
  }

  // ---------- What canonical forms identify ----------

  function Without<T>(s: seq<T>, j: nat): (r: seq<T>)
    requires j < |s|
    ensures |r| == |s| - 1
  {
    s[..j] + s[j + 1..]
  }

  ghost predicate Pointwise(xs: seq<Json>, ys: seq<Json>)
    decreases xs, 1
  {
    |xs| == |ys| && (xs == [] || (Equivalent(xs[0], ys[0]) && Pointwise(xs[1..], ys[1..])))
  }

  ghost predicate PartnerAt(xs: seq<Json>, ys: seq<Json>, j: nat)
    requires xs != [] && j < |ys|
    decreases xs, 0
  {
    Equivalent(xs[0], ys[j]) && Permuted(xs[1..], Without(ys, j))
  }

  /** Each element has a partner of its own. */
  ghost predicate Permuted(xs: seq<Json>, ys: seq<Json>)
    decreases xs, 1
  {
    |xs| == |ys| && (xs == [] || exists j :: 0 <= j < |ys| && PartnerAt(xs, ys, j))
  }

  ghost predicate FieldPartnerAt(fs: seq<Field>, gs: seq<Field>, j: nat)
    requires fs != [] && j < |gs|
    decreases fs, 0
  {
    fs[0].key == gs[j].key && Equivalent(fs[0].value, gs[j].value) && PermutedFields(fs[1..], Without(gs, j))
  }

  ghost predicate PermutedFields(fs: seq<Field>, gs: seq<Field>)
    decreases fs, 1
  {
    |fs| == |gs| && (fs == [] || exists j :: 0 <= j < |gs| && FieldPartnerAt(fs, gs, j))
  }

  /** Equal up to the order of object keys and of arrays whose elements all have a sort key. */
  ghost predicate Equivalent(a: Json, b: Json)
    decreases a, 0
  {
    match (a, b)
    case (Arr(xs), Arr(ys)) =>
      if AllKeyed(xs) then AllKeyed(ys) && Permuted(xs, ys) else Pointwise(xs, ys)
    case (Obj(fs), Obj(gs)) => PermutedFields(fs, gs)
    case _ => a == b
  }

  lemma WithoutSteps<T>(s: seq<T>, j: nat)
    requires j < |s|
    ensures j == 0 ==> Without(s, j) == s[1..]
    ensures j > 0 ==> Without(s, j) == [s[0]] + Without(s[1..], j - 1)
    ensures j > 0 ==> Without(s, j)[0] == s[0] && Without(s, j)[1..] == Without(s[1..], j - 1)
  {
  }

  lemma {:induction false} WithoutItem(ser: Json -> string, items: seq<Json>, j: nat)
    requires j < |items| && WellFormedItems(items)
    ensures CanonicalItems(ser, Without(items, j)) == Without(CanonicalItems(ser, items), j)
    ensures WellFormedItems(Without(items, j))
  {
    hide Canonical, WellFormed, Without;
    WithoutSteps(items, j);
    WithoutSteps(CanonicalItems(ser, items), j);
    assert CanonicalItems(ser, items)[1..] == CanonicalItems(ser, items[1..]);
    if j > 0 {
      WithoutItem(ser, items[1..], j - 1);
    }
  }

  lemma {:induction false} WithoutField(ser: Json -> string, fields: seq<Field>, j: nat)
    requires j < |fields| && WellFormedFields(fields)
    ensures CanonicalFields(ser, Without(fields, j)) == Without(CanonicalFields(ser, fields), j)
    ensures WellFormedFields(Without(fields, j))
  {
    hide Canonical, WellFormed, Without;
    WithoutSteps(fields, j);
    WithoutSteps(CanonicalFields(ser, fields), j);
    assert CanonicalFields(ser, fields)[1..] == CanonicalFields(ser, fields[1..]);
    if j > 0 {
      WithoutField(ser, fields[1..], j - 1);
    }
  }

  /** Taking equal members away from two sequences keeps them equal as multisets, and conversely. */
  lemma MatchedMembers<T>(a: seq<T>, b: seq<T>, j: nat)
    requires a != [] && j < |b| && a[0] == b[j]
    ensures multiset(a) == multiset(b) <==> multiset(a[1..]) == multiset(Without(b, j))
  {
    assert a == [a[0]] + a[1..];
    assert b == b[..j] + [b[j]] + b[j + 1..];
    assert multiset(a) == multiset{a[0]} + multiset(a[1..]);
    assert multiset(b) == multiset{b[j]} + multiset(Without(b, j));
    assert multiset(a[1..]) == multiset(a) - multiset{a[0]};
    assert multiset(Without(b, j)) == multiset(b) - multiset{b[j]};
  }

  lemma HeadHasPartner<T>(a: seq<T>, b: seq<T>) returns (j: nat)
    requires a != [] && multiset(a) == multiset(b)
    ensures j < |b| && b[j] == a[0]
  {
    assert a[0] in a;
    SameMembers(a, b, a[0]);
    j :| 0 <= j < |b| && b[j] == a[0];
  }

  lemma {:induction false} PartnerIff(ser: Json -> string, xs: seq<Json>, ys: seq<Json>, j: nat)
    requires Injective(ser) && WellFormedItems(xs) && WellFormedItems(ys)
    requires xs != [] && j < |ys|
    ensures PartnerAt(xs, ys, j) <==>
            && CanonicalItems(ser, xs)[0] == CanonicalItems(ser, ys)[j]
            && multiset(CanonicalItems(ser, xs)) == multiset(CanonicalItems(ser, ys))
    decreases xs, 0
  {
    hide Canonical, Equivalent, WellFormed, Injective, Permuted;
    var cx, cy := CanonicalItems(ser, xs), CanonicalItems(ser, ys);
    ItemsAt(ser, ys, j);
    CanonicalEqualIff(ser, xs[0], ys[j]);
    WithoutItem(ser, ys, j);
    PermutedIff(ser, xs[1..], Without(ys, j));
    assert cx[1..] == CanonicalItems(ser, xs[1..]);
    if cx[0] == cy[j] {
      MatchedMembers(cx, cy, j);
    }
  }

  lemma {:induction false} PermutedIff(ser: Json -> string, xs: seq<Json>, ys: seq<Json>)
    requires Injective(ser) && WellFormedItems(xs) && WellFormedItems(ys)
    ensures multiset(CanonicalItems(ser, xs)) == multiset(CanonicalItems(ser, ys)) <==> Permuted(xs, ys)
    decreases xs, 1
  {
    hide Canonical, Equivalent, WellFormed, Injective, PartnerAt;
    var cx, cy := CanonicalItems(ser, xs), CanonicalItems(ser, ys);
    assert |multiset(cx)| == |xs| && |multiset(cy)| == |ys|;
    if xs == [] {
    } else {
      forall j | 0 <= j < |ys|
        ensures PartnerAt(xs, ys, j) <==> cx[0] == cy[j] && multiset(cx) == multiset(cy)
      {
        PartnerIff(ser, xs, ys, j);
      }
      if multiset(cx) == multiset(cy) {
        var j := HeadHasPartner(cx, cy);
        assert PartnerAt(xs, ys, j);
      }
    }
  }

  lemma {:induction false} FieldPartnerIff(ser: Json -> string, fs: seq<Field>, gs: seq<Field>, j: nat)
    requires Injective(ser) && WellFormedFields(fs) && WellFormedFields(gs)
    requires fs != [] && j < |gs|
    ensures FieldPartnerAt(fs, gs, j) <==>
            && CanonicalFields(ser, fs)[0] == CanonicalFields(ser, gs)[j]
            && multiset(CanonicalFields(ser, fs)) == multiset(CanonicalFields(ser, gs))
    decreases fs, 0
  {
    hide Canonical, Equivalent, WellFormed, Injective, PermutedFields;
    var cf, cg := CanonicalFields(ser, fs), CanonicalFields(ser, gs);
    FieldsAt(ser, gs, j);
    CanonicalEqualIff(ser, fs[0].value, gs[j].value);
    WithoutField(ser, gs, j);
    PermutedFieldsIff(ser, fs[1..], Without(gs, j));
    assert cf[1..] == CanonicalFields(ser, fs[1..]);
    if cf[0] == cg[j] {
      MatchedMembers(cf, cg, j);
    }
  }

  lemma {:induction false} PermutedFieldsIff(ser: Json -> string, fs: seq<Field>, gs: seq<Field>)
    requires Injective(ser) && WellFormedFields(fs) && WellFormedFields(gs)
    ensures multiset(CanonicalFields(ser, fs)) == multiset(CanonicalFields(ser, gs)) <==> PermutedFields(fs, gs)
    decreases fs, 1
  {
    hide Canonical, Equivalent, WellFormed, Injective, FieldPartnerAt;
    var cf, cg := CanonicalFields(ser, fs), CanonicalFields(ser, gs);
    assert |multiset(cf)| == |fs| && |multiset(cg)| == |gs|;
    if fs == [] {
    } else {
      forall j | 0 <= j < |gs|
        ensures FieldPartnerAt(fs, gs, j) <==> cf[0] == cg[j] && multiset(cf) == multiset(cg)
      {
        FieldPartnerIff(ser, fs, gs, j);
      }
      if multiset(cf) == multiset(cg) {
        var j := HeadHasPartner(cf, cg);
        assert FieldPartnerAt(fs, gs, j);
      }
    }
  }

  lemma AllKeyedByMembers(leq: (Json, Json) -> bool, items: seq<Json>)
    requires AllKeyed(items)
    ensures AllKeyed(SortBy(leq, items))
  {
    hide SortKey;
    var sorted := SortBy(leq, items);
    SortMembers(leq, items);
    forall i | 0 <= i < |sorted|
      ensures SortKey(sorted[i]).Some?
    {
      SameMembers(sorted, items, sorted[i]);
      var k :| 0 <= k < |items| && items[k] == sorted[i];
    }
  }

  lemma {:induction false} AllWellFormedItems(items: seq<Json>)
    requires forall x :: x in items ==> WellFormed(x)
    ensures WellFormedItems(items)
  {
    hide WellFormed;
    if items == [] {
    } else {
      AllWellFormedItems(items[1..]);
    }
  }

  lemma {:induction false} AllWellFormedFields(fields: seq<Field>)
    requires forall f :: f in fields ==> WellFormed(f.value)
    ensures WellFormedFields(fields)
  {
    hide WellFormed;
    if fields == [] {
    } else {
      AllWellFormedFields(fields[1..]);
    }
  }

  lemma {:induction false} CanonicalItemsWellFormed(ser: Json -> string, items: seq<Json>)
    requires WellFormedItems(items)
    ensures forall x :: x in CanonicalItems(ser, items) ==> WellFormed(x)
    decreases items, 1
  {
    hide WellFormed, Canonical;
    if items == [] {
    } else {
      CanonicalWellFormed(ser, items[0]);
      CanonicalItemsWellFormed(ser, items[1..]);
      assert CanonicalItems(ser, items) == [Canonical(ser, items[0])] + CanonicalItems(ser, items[1..]);
    }
  }

  lemma {:induction false} CanonicalFieldsWellFormed(ser: Json -> string, fields: seq<Field>)
    requires WellFormedFields(fields)
    ensures forall f :: f in CanonicalFields(ser, fields) ==> WellFormed(f.value)
    decreases fields, 1
  {
    hide WellFormed, Canonical;
    if fields == [] {
    } else {
      CanonicalWellFormed(ser, fields[0].value);
      CanonicalFieldsWellFormed(ser, fields[1..]);
      assert CanonicalFields(ser, fields) ==
             [Field(fields[0].key, Canonical(ser, fields[0].value))] + CanonicalFields(ser, fields[1..]);
    }
  }

  /** A canonical form is well-formed. */
  lemma {:induction false} CanonicalWellFormed(ser: Json -> string, value: Json)
    requires WellFormed(value)
    ensures WellFormed(Canonical(ser, value))
    decreases value, 0
  {
    match value
    case Arr(items) =>
      CanonicalItemsWellFormed(ser, items);
      SortedItemsWellFormed(ser, CanonicalItems(ser, items));
    case Obj(fields) =>
      CanonicalFieldsWellFormed(ser, fields);
      CanonicalFieldsUnique(ser, fields);
      SortedFieldsWellFormed(CanonicalFields(ser, fields));
    case _ =>
  }

  lemma SortedItemsWellFormed(ser: Json -> string, items: seq<Json>)
    requires forall x :: x in items ==> WellFormed(x)
    ensures WellFormedItems(items) && WellFormedItems(SortBy(ItemOrder(ser), items))
  {
    hide WellFormed;
    var sorted := SortBy(ItemOrder(ser), items);
    SortMembers(ItemOrder(ser), items);
    hide SortBy;
    forall x | x in sorted
      ensures WellFormed(x)
    {
      SameMembers(sorted, items, x);
    }
    AllWellFormedItems(items);
    AllWellFormedItems(sorted);
  }

  lemma SortedFieldsWellFormed(fields: seq<Field>)
    requires UniqueKeys(fields) && forall f :: f in fields ==> WellFormed(f.value)
    ensures WellFormed(Obj(SortBy(FieldOrder(), fields)))
  {
    var sorted := SortBy(FieldOrder(), fields);
    SortMembers(FieldOrder(), fields);
    UniqueKeysByMembers(fields, sorted);
    hide SortBy, UniqueKeys;
    forall f | f in sorted
      ensures WellFormed(f.value)
    {
      SameMembers(sorted, fields, f);
    }
    AllWellFormedFields(sorted);
  }

  lemma ArraysEqualIff(ser: Json -> string, xs: seq<Json>, ys: seq<Json>)
    requires Injective(ser) && WellFormedItems(xs) && WellFormedItems(ys)
    requires Pointwise(xs, ys) <==> CanonicalItems(ser, xs) == CanonicalItems(ser, ys)
    requires Permuted(xs, ys) <==> multiset(CanonicalItems(ser, xs)) == multiset(CanonicalItems(ser, ys))
    ensures Canonical(ser, Arr(xs)) == Canonical(ser, Arr(ys)) <==> Equivalent(Arr(xs), Arr(ys))
  {
    hide SortKey, Pointwise, Permuted, SortBy, CanonicalItems, AllKeyed, TotalPreorder, Antisymmetric, Injective;
    hide WellFormed;
    var cx, cy := CanonicalItems(ser, xs), CanonicalItems(ser, ys);
    AllKeyedSurvives(ser, xs);
    AllKeyedSurvives(ser, ys);
    ItemOrderIsTotal(ser);
    CanonicalItemsWellFormed(ser, xs);
    ItemOrderAntisymmetric(ser, cx);
    if AllKeyed(xs) && AllKeyed(ys) {
      SortEqualIff(ItemOrder(ser), cx, cy);
    } else if AllKeyed(xs) {
      AllKeyedByMembers(ItemOrder(ser), cx);
    } else if AllKeyed(ys) {
      AllKeyedByMembers(ItemOrder(ser), cy);
    }
  }

  lemma ObjectsEqualIff(ser: Json -> string, fs: seq<Field>, gs: seq<Field>)
    requires UniqueKeys(fs)
    requires PermutedFields(fs, gs) <==> multiset(CanonicalFields(ser, fs)) == multiset(CanonicalFields(ser, gs))
    ensures Canonical(ser, Obj(fs)) == Canonical(ser, Obj(gs)) <==> Equivalent(Obj(fs), Obj(gs))
  {
    hide PermutedFields;
    FieldOrderIsTotal();
    CanonicalFieldsUnique(ser, fs);
    FieldOrderAntisymmetric(CanonicalFields(ser, fs));
    SortEqualIff(FieldOrder(), CanonicalFields(ser, fs), CanonicalFields(ser, gs));
  }

  /** Two values have the same canonical form exactly when they differ only in the order of object keys
      and of arrays whose elements all have a sort key. */
  lemma {:induction false} CanonicalEqualIff(ser: Json -> string, a: Json, b: Json)
    requires Injective(ser) && WellFormed(a) && WellFormed(b)
    ensures Canonical(ser, a) == Canonical(ser, b) <==> Equivalent(a, b)
    decreases a
  {
    match (a, b)
    case (Arr(xs), Arr(ys)) =>
      PointwiseIff(ser, xs, ys);
      PermutedIff(ser, xs, ys);
      ArraysEqualIff(ser, xs, ys);
    case (Obj(fs), Obj(gs)) =>
      PermutedFieldsIff(ser, fs, gs);
      ObjectsEqualIff(ser, fs, gs);
    case _ =>
  }

  lemma {:induction false} PointwiseIff(ser: Json -> string, xs: seq<Json>, ys: seq<Json>)
    requires Injective(ser) && WellFormedItems(xs) && WellFormedItems(ys)
    ensures CanonicalItems(ser, xs) == CanonicalItems(ser, ys) <==> Pointwise(xs, ys)
    decreases xs, 1
  {
    hide Canonical, Equivalent, WellFormed, Injective;
    if xs != [] && |xs| == |ys| {
      CanonicalEqualIff(ser, xs[0], ys[0]);
      PointwiseIff(ser, xs[1..], ys[1..]);
      var cx, cy := CanonicalItems(ser, xs), CanonicalItems(ser, ys);
      assert cx == [Canonical(ser, xs[0])] + CanonicalItems(ser, xs[1..]);
      assert cy == [Canonical(ser, ys[0])] + CanonicalItems(ser, ys[1..]);
      assert cx[1..] == CanonicalItems(ser, xs[1..]) && cy[1..] == CanonicalItems(ser, ys[1..]);
    }
  }

  // ---------- With the serialization that is used ----------

  const TO_STRING: Json -> string := (value: Json) => Serialize(value)

  lemma {:induction false} WellFormedNumbers(value: Json)
    requires WellFormed(value)
    ensures NumbersOk(value)
    decreases value, 0
  {
    match value
    case Arr(items) => WellFormedItemNumbers(items);
    case Obj(fields) => WellFormedFieldNumbers(fields);
    case _ =>
  }

  lemma {:induction false} WellFormedItemNumbers(items: seq<Json>)
    requires WellFormedItems(items)
    ensures NumbersOkItems(items)
    decreases items, 1
  {
    if items == [] {
    } else {
      WellFormedNumbers(items[0]);
      WellFormedItemNumbers(items[1..]);
    }
  }

  lemma {:induction false} WellFormedFieldNumbers(fields: seq<Field>)
    requires WellFormedFields(fields)
    ensures NumbersOkFields(fields)
    decreases fields, 1
  {
    if fields == [] {
    } else {
      WellFormedNumbers(fields[0].value);
      WellFormedFieldNumbers(fields[1..]);
    }
  }

  lemma SerializationIsInjective()
    ensures Injective(TO_STRING)
  {
    hide WellFormed, Serialize;
    forall a, b | WellFormed(a) && WellFormed(b) && TO_STRING(a) == TO_STRING(b)
      ensures a == b
    {
      WellFormedNumbers(a);
      WellFormedNumbers(b);
      SerializeInjective(a, b);
    }
  }

  /** Canonical forms as they are computed, with ties between sort keys broken by the text of the items:
      equal exactly for values that differ only in the order of object keys and of arrays whose elements
      all have a sort key. */
  lemma SameCanonicalFormIff(a: Json, b: Json)
    requires WellFormed(a) && WellFormed(b)
    ensures Canonical(TO_STRING, a) == Canonical(TO_STRING, b) <==> Equivalent(a, b)
  {
    hide *;
    SerializationIsInjective();
    CanonicalEqualIff(TO_STRING, a, b);
  }
}
