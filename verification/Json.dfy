/** JSON values. Objects keep their fields in order and hold each key once. */
module Json {
  import opened Wrappers

  datatype Field = Field(key: string, value: Json)

  datatype Json =
    | Null
    | Bool(b: bool)
    | Number(text: string)
    | Str(s: string)
    | Arr(items: seq<Json>)
    | Obj(fields: seq<Field>)

  predicate HasKey(fields: seq<Field>, key: string) {
    exists i :: 0 <= i < |fields| && fields[i].key == key
  }

  function Get(fields: seq<Field>, key: string): Option<Json> {
    if fields == [] then None
    else if fields[0].key == key then Some(fields[0].value)
    else Get(fields[1..], key)
  }

  /** `value.get(key)` on any value. */
  function Member(value: Json, key: string): Option<Json> {
    if value.Obj? then Get(value.fields, key) else None
  }

  /** The object with another value under a key it has. */
  function Replace(fields: seq<Field>, key: string, value: Json): seq<Field> {
    if fields == [] then []
    else if fields[0].key == key then [Field(key, value)] + fields[1..]
    else [fields[0]] + Replace(fields[1..], key, value)
  }

  predicate UniqueKeys(fields: seq<Field>) {
    forall i, j :: 0 <= i < j < |fields| ==> fields[i].key != fields[j].key
  }

  lemma {:induction false} GetIsMember(fields: seq<Field>, key: string)
    ensures Get(fields, key).Some? <==> HasKey(fields, key)
    ensures Get(fields, key).Some? ==>
            exists i :: 0 <= i < |fields| && fields[i] == Field(key, Get(fields, key).value)
  {
    if fields == [] {
    } else {
      GetIsMember(fields[1..], key);
      if fields[0].key == key {
        assert fields[0] == Field(key, Get(fields, key).value);
      } else {
        if HasKey(fields[1..], key) {
          var i :| 0 <= i < |fields[1..]| && fields[1..][i].key == key;
          assert fields[i + 1].key == key;
        }
        if HasKey(fields, key) {
          var i :| 0 <= i < |fields| && fields[i].key == key;
          assert fields[1..][i - 1].key == key;
        }
        if Get(fields, key).Some? {
          var i :| 0 <= i < |fields[1..]| && fields[1..][i] == Field(key, Get(fields, key).value);
          assert fields[i + 1] == Field(key, Get(fields, key).value);
        }
      }
    }
  }

  lemma {:induction false} GetAfterReplace(fields: seq<Field>, key: string, value: Json, other: string)
    ensures Get(Replace(fields, key, value), other) ==
            if other == key && Get(fields, key).Some? then Some(value) else Get(fields, other)
  {
    if fields == [] {
    } else {
      if fields[0].key == key {
        assert Replace(fields, key, value)[1..] == fields[1..];
      } else {
        GetAfterReplace(fields[1..], key, value, other);
        assert Replace(fields, key, value)[1..] == Replace(fields[1..], key, value);
      }
    }
  }

  // ---------- Numbers ----------

  predicate IsNumberChar(c: char) {
    '0' <= c <= '9' || c == '-' || c == '+' || c == '.' || c == 'e' || c == 'E'
  }

  predicate IsNumberText(text: string) {
    text != "" && forall i :: 0 <= i < |text| ==> IsNumberChar(text[i])
  }

  /** Numbers are written in digits, signs, points and exponents. */
  predicate NumbersOk(value: Json)
    decreases value, 0
  {
    match value
    case Number(text) => IsNumberText(text)
    case Arr(items) => NumbersOkItems(items)
    case Obj(fields) => NumbersOkFields(fields)
    case _ => true
  }

  predicate NumbersOkItems(items: seq<Json>)
    decreases items, 1
  {
    items == [] || (NumbersOk(items[0]) && NumbersOkItems(items[1..]))
  }

  predicate NumbersOkFields(fields: seq<Field>)
    decreases fields, 1
  {
    fields == [] || (NumbersOk(fields[0].value) && NumbersOkFields(fields[1..]))
  }
}
