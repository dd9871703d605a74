/** What a canonical form looks like: fields in strictly increasing order of their keys, and arrays whose items all
    have sort keys in the order of these, kind by kind. */
module CanonicalOrder {
  import opened Wrappers
  import opened Json
  import opened Sorting
  import opened CanonicalJson

  // ---------- The order of texts ----------

  /** The first difference decides, and a proper prefix comes first. */
  predicate Precedes(a: string, b: string) {
    || a < b
    || exists i :: 0 <= i < |a| && i < |b| && a[..i] == b[..i] && a[i] < b[i]
  }

  lemma PrecedesIfTails(a: string, b: string)
    requires a != "" && b != "" && a[0] == b[0] && Precedes(a[1..], b[1..])
    ensures Precedes(a, b)
  {
    var x, y := a[1..], b[1..];
    assert a == [a[0]] + x && b == [b[0]] + y;
    if !(x < y) {
      var i :| 0 <= i < |x| && i < |y| && x[..i] == y[..i] && x[i] < y[i];
      assert a[..i + 1] == [a[0]] + x[..i] && b[..i + 1] == [b[0]] + y[..i];
      assert a[i + 1] < b[i + 1];
    }
  }

  lemma TailsPrecede(a: string, b: string)
    requires a != "" && b != "" && Precedes(a, b)
    ensures a[0] < b[0] || (a[0] == b[0] && Precedes(a[1..], b[1..]))
  {
    if !(a < b) {
      var i :| 0 <= i < |a| && i < |b| && a[..i] == b[..i] && a[i] < b[i];
      if i > 0 {
        var x, y := a[1..], b[1..];
        assert a[..i][0] == b[..i][0];
        assert x[..i - 1] == a[..i][1..] && y[..i - 1] == b[..i][1..];
        assert x[i - 1] < y[i - 1];
      }
    }
  }

  /** Texts are in order exactly when they are the same or one precedes the other. */
  lemma {:induction false} StringLeqIff(a: string, b: string)
    ensures StringLeq(a, b) <==> a == b || Precedes(a, b)
  {
    if a != "" && b != "" {
      assert a == [a[0]] + a[1..] && b == [b[0]] + b[1..];
      StringLeqIff(a[1..], b[1..]);
      if a[0] < b[0] {
        assert a[..0] == b[..0];
      } else if a[0] == b[0] && Precedes(a[1..], b[1..]) {
        PrecedesIfTails(a, b);
      }
      if Precedes(a, b) {
        TailsPrecede(a, b);
      }
    }
  }

  lemma PrecedesStrictly(a: string, b: string)
    requires a != b && StringLeq(a, b)
    ensures Precedes(a, b)
  {
    StringLeqIff(a, b);
  }

  // ---------- Sort keys ----------

  predicate HasText(item: Json, key: string, text: string) {
    item.Obj? && Get(item.fields, key) == Some(Str(text))
  }

  ghost predicate HasAnyText(item: Json, key: string) {
    exists text :: HasText(item, key, text)
  }

  ghost predicate SameText(a: Json, b: Json, key: string) {
    exists text :: HasText(a, key, text) && HasText(b, key, text)
  }

  lemma TextIs(item: Json, key: string)
    ensures HasAnyText(item, key) <==>
            item.Obj? && Get(item.fields, key).Some? && Get(item.fields, key).value.Str?
  {
    if item.Obj? && Get(item.fields, key).Some? && Get(item.fields, key).value.Str? {
      assert HasText(item, key, Get(item.fields, key).value.s);
    }
  }

  /** Arrays have no sort key, and objects only one that refers or has a title. */
  lemma KeyedIff(item: Json)
    ensures SortKey(item).Some? <==>
            !item.Arr? && (item.Obj? ==> HasAnyText(item, "$ref") || HasAnyText(item, "title"))
  {
    TextIs(item, "$ref");
    TextIs(item, "title");
    hide HasAnyText, Get;
  }

  /** Two sort keys are the same exactly when the items are the same simple value, or objects with the same
      reference or, where neither refers, with the same title. */
  ghost predicate SameKey(a: Json, b: Json) {
    if a.Obj? && b.Obj? then
      SameText(a, b, "$ref") || (!HasAnyText(a, "$ref") && !HasAnyText(b, "$ref") && SameText(a, b, "title"))
    else a == b
  }

  lemma SameTextIs(a: Json, b: Json, key: string)
    ensures SameText(a, b, key) <==>
            && a.Obj? && Get(a.fields, key).Some? && Get(a.fields, key).value.Str?
            && b.Obj? && Get(b.fields, key) == Get(a.fields, key)
  {
    if a.Obj? && b.Obj? && Get(a.fields, key).Some? && Get(a.fields, key).value.Str?
       && Get(b.fields, key) == Get(a.fields, key) {
      assert HasText(a, key, Get(a.fields, key).value.s) && HasText(b, key, Get(a.fields, key).value.s);
    }
  }

  function KindOf(item: Json): (rank: nat) {
    match item
    case Bool(_) => 0
    case Number(_) => 1
    case Null => 2
    case Obj(fields) => (match Get(fields, "$ref") case Some(Str(_)) => 3 case _ => 5)
    case Str(_) => 4
    case Arr(_) => 6
  }

  /** What a sort key starts with, and the rest of it. */
  function Tag(rank: nat): string {
    match rank
    case 0 => "b:"
    case 1 => "n:"
    case 2 => "null"
    case 3 => "ref:"
    case 4 => "s:"
    case _ => "title:"
  }

  function Detail(item: Json): string {
    match item
    case Bool(b) => if b then "true" else "false"
    case Number(text) => text
    case Null => ""
    case Str(s) => s
    case Obj(fields) =>
      (match (Get(fields, "$ref"), Get(fields, "title"))
       case (Some(Str(reference)), _) => reference
       case (_, Some(Str(title))) => title
       case _ => "")
    case Arr(_) => ""
  }

  lemma KeyIsTagged(item: Json)
    requires SortKey(item).Some?
    ensures KeyOf(item) == Tag(KindOf(item)) + Detail(item) && KindOf(item) < 6
  {
  }

  lemma TagsInOrder(p: nat, q: nat, x: string, y: string)
    requires p < q < 6
    ensures StringLeq(Tag(p) + x, Tag(q) + y) && Tag(p) + x != Tag(q) + y
  {
    var a, b := Tag(p) + x, Tag(q) + y;
    if a[0] == b[0] {
      assert a[1..][0] == a[1] && b[1..][0] == b[1];
    }
  }

  /** Sort keys put booleans first, then numbers, null, references, strings and titles. */
  lemma KindsInOrder(a: Json, b: Json)
    requires SortKey(a).Some? && SortKey(b).Some? && KindOf(a) < KindOf(b)
    ensures Precedes(KeyOf(a), KeyOf(b))
  {
    KeyIsTagged(a);
    KeyIsTagged(b);
    hide SortKey, KeyOf, Tag, Detail, KindOf;
    TagsInOrder(KindOf(a), KindOf(b), Detail(a), Detail(b));
    PrecedesStrictly(KeyOf(a), KeyOf(b));
  }

  lemma SameTagged(rank: nat, x: string, y: string)
    requires Tag(rank) + x == Tag(rank) + y
    ensures x == y
  {
    assert (Tag(rank) + x)[|Tag(rank)|..] == x && (Tag(rank) + y)[|Tag(rank)|..] == y;
  }

  lemma SameDetailIff(a: Json, b: Json)
    requires SortKey(a).Some? && SortKey(b).Some? && KindOf(a) == KindOf(b)
    ensures Detail(a) == Detail(b) <==> SameKey(a, b)
  {
    SameTextIs(a, b, "$ref");
    SameTextIs(a, b, "title");
    TextIs(a, "$ref");
    TextIs(b, "$ref");
    hide SameText, HasAnyText, Get;
    assert "true" != "false" by { assert "true"[0] != "false"[0]; }
  }

  lemma SameKeySameKind(a: Json, b: Json)
    requires SortKey(a).Some? && SortKey(b).Some? && SameKey(a, b)
    ensures KindOf(a) == KindOf(b)
  {
    SameTextIs(a, b, "$ref");
    TextIs(a, "$ref");
    TextIs(b, "$ref");
    hide SameText, HasAnyText, Get;
  }

  lemma SameKeyIff(a: Json, b: Json)
    requires SortKey(a).Some? && SortKey(b).Some?
    ensures KeyOf(a) == KeyOf(b) <==> SameKey(a, b)
  {
    KeyIsTagged(a);
    KeyIsTagged(b);
    hide SortKey, KeyOf, Tag, Detail, KindOf;
    if KindOf(a) < KindOf(b) {
      TagsInOrder(KindOf(a), KindOf(b), Detail(a), Detail(b));
    } else if KindOf(b) < KindOf(a) {
      TagsInOrder(KindOf(b), KindOf(a), Detail(b), Detail(a));
    } else {
      SameDetailIff(a, b);
      if KeyOf(a) == KeyOf(b) {
        SameTagged(KindOf(a), Detail(a), Detail(b));
      }
    }
    if SameKey(a, b) {
      SameKeySameKind(a, b);
    }
  }

  // ---------- Canonical values ----------

  /** The fields of a canonical object: the same keys with canonical values, each before the next. */
  lemma CanonicalObject(ser: Json -> string, fields: seq<Field>)
    requires UniqueKeys(fields)
    ensures var r := Canonical(ser, Obj(fields));
            && r.Obj?
            && (forall i, j :: 0 <= i < j < |r.fields| ==> Precedes(r.fields[i].key, r.fields[j].key))
            && (forall key :: Get(r.fields, key) == match Get(fields, key) {
                  case Some(v) => Some(Canonical(ser, v))
                  case None => None
                })
  {
    var canonical := CanonicalFields(ser, fields);
    var sorted := SortBy(FieldOrder(), canonical);
    CanonicalFieldsUnique(ser, fields);
    SortMembers(FieldOrder(), canonical);
    UniqueKeysByMembers(canonical, sorted);
    FieldOrderIsTotal();
    SortSorted(FieldOrder(), canonical);
    forall key
      ensures Get(sorted, key) == match Get(fields, key) {
                case Some(v) => Some(Canonical(ser, v))
                case None => None
              }
    {
      CanonicalObjectGet(ser, fields, key);
    }
    hide SortBy, CanonicalFields, Precedes, Get;
    forall i, j | 0 <= i < j < |sorted|
      ensures Precedes(sorted[i].key, sorted[j].key)
    {
      assert FieldOrder()(sorted[i], sorted[j]);
      PrecedesStrictly(sorted[i].key, sorted[j].key);
    }
  }

  /** The items of a canonical array: the canonical items, in order of their sort keys and then of their texts
      if they all have sort keys, and otherwise in the order they had. */
  lemma CanonicalArray(ser: Json -> string, items: seq<Json>)
    ensures var r, canonical := Canonical(ser, Arr(items)), CanonicalItems(ser, items);
            && r.Arr?
            && multiset(r.items) == multiset(canonical)
            && (AllKeyed(canonical) ==> forall i, j :: 0 <= i < j < |r.items| ==>
                  || Precedes(KeyOf(r.items[i]), KeyOf(r.items[j]))
                  || (KeyOf(r.items[i]) == KeyOf(r.items[j])
                      && (ser(r.items[i]) == ser(r.items[j]) || Precedes(ser(r.items[i]), ser(r.items[j])))))
            && (!AllKeyed(canonical) ==> r.items == canonical)
  {
    var canonical := CanonicalItems(ser, items);
    SortMembers(ItemOrder(ser), canonical);
    ItemOrderIsTotal(ser);
    SortSorted(ItemOrder(ser), canonical);
    var sorted := SortBy(ItemOrder(ser), canonical);
    hide SortBy, CanonicalItems, Precedes, KeyOf, AllKeyed, StringLeq;
    forall i, j | 0 <= i < j < |sorted|
      ensures || Precedes(KeyOf(sorted[i]), KeyOf(sorted[j]))
              || (KeyOf(sorted[i]) == KeyOf(sorted[j])
                  && (ser(sorted[i]) == ser(sorted[j]) || Precedes(ser(sorted[i]), ser(sorted[j]))))
    {
      assert ItemOrder(ser)(sorted[i], sorted[j]);
      assert ItemLeq(ser, sorted[i], sorted[j]);
      StringLeqIff(KeyOf(sorted[i]), KeyOf(sorted[j]));
      StringLeqIff(ser(sorted[i]), ser(sorted[j]));
    }
  }
}
