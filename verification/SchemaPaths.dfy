/** References and reachability in a schema, in terms of the values inside it: which texts refer to which definition,
    and which definitions a chain of references leads to. */
module SchemaPaths {
  import opened Wrappers
  import opened Text
  import opened Json
  import opened SchemaRefs

  // ---------- What one value refers to ----------

  /** The value's own "$ref" points to the definition or to something inside it. */
  ghost predicate RefersTo(value: Json, defsKey: string, name: string) {
    && '/' !in name
    && exists rest: string ::
         && (rest == "" || rest[0] == '/')
         && Member(value, "$ref") == Some(Str("#/" + defsKey + "/" + name + rest))
  }

  lemma {:induction false} FirstSegmentSplits(s: string) returns (rest: string)
    ensures s == FirstSegment(s) + rest && (rest == "" || rest[0] == '/') && '/' !in FirstSegment(s)
  {
    if s == "" || s[0] == '/' {
      rest := s;
    } else {
      rest := FirstSegmentSplits(s[1..]);
      assert s == [s[0]] + s[1..];
    }
  }

  lemma {:induction false} FirstSegmentOf(name: string, rest: string)
    requires '/' !in name && (rest == "" || rest[0] == '/')
    ensures FirstSegment(name + rest) == name
  {
    if name == "" {
      assert name + rest == rest;
    } else {
      assert (name + rest)[1..] == name[1..] + rest;
      FirstSegmentOf(name[1..], rest);
      assert name == [name[0]] + name[1..];
    }
  }

  lemma RefHereIff(value: Json, defsKey: string, name: string)
    ensures RefHere(value, defsKey) == Some(name) <==> RefersTo(value, defsKey, name)
  {
    var prefix := "#/" + defsKey + "/";
    if RefHere(value, defsKey) == Some(name) {
      var text := Member(value, "$ref").value.s;
      var tail := text[|prefix|..];
      var rest := FirstSegmentSplits(tail);
      assert text == prefix + (name + rest) == prefix + name + rest;
    }
    if RefersTo(value, defsKey, name) {
      var rest: string :| (rest == "" || rest[0] == '/') && Member(value, "$ref") == Some(Str(prefix + name + rest));
      var text := prefix + name + rest;
      assert prefix <= text && text[|prefix|..] == name + rest;
      FirstSegmentOf(name, rest);
    }
  }

  // ---------- Values inside values ----------

  /** The children of a value, in order. */
  function Children(value: Json): (children: seq<Json>) {
    match value
    case Obj(fields) => seq(|fields|, i requires 0 <= i < |fields| => fields[i].value)
    case Arr(items) => items
    case _ => []
  }

  /** The value that a path of child numbers leads to. */
  ghost predicate LeadsTo(value: Json, path: seq<nat>, inner: Json)
    decreases |path|
  {
    if path == [] then inner == value
    else path[0] < |Children(value)| && LeadsTo(Children(value)[path[0]], path[1..], inner)
  }

  /** The path goes into no definition map. */
  ghost predicate StaysOutside(value: Json, path: seq<nat>, defsKey: string)
    decreases |path|
  {
    || path == []
    || (path[0] < |Children(value)|
        && (value.Obj? ==> value.fields[path[0]].key !in {defsKey, "$defs", "definitions"})
        && StaysOutside(Children(value)[path[0]], path[1..], defsKey))
  }

  /** Something inside the value, or the value itself, refers to the definition. */
  ghost predicate RefersInside(value: Json, defsKey: string, name: string) {
    exists path, inner :: LeadsTo(value, path, inner) && RefersTo(inner, defsKey, name)
  }

  ghost predicate RefersOutside(value: Json, defsKey: string, name: string) {
    exists path, inner ::
      LeadsTo(value, path, inner) && StaysOutside(value, path, defsKey) && RefersTo(inner, defsKey, name)
  }

  lemma InsideIff(value: Json, defsKey: string, name: string)
    ensures RefersInside(value, defsKey, name) <==>
            || RefersTo(value, defsKey, name)
            || exists i :: 0 <= i < |Children(value)| && RefersInside(Children(value)[i], defsKey, name)
  {
    hide RefersTo, Children;
    if RefersTo(value, defsKey, name) {
      assert LeadsTo(value, [], value);
    }
    if RefersInside(value, defsKey, name) {
      var path, inner :| LeadsTo(value, path, inner) && RefersTo(inner, defsKey, name);
      if path != [] {
        assert LeadsTo(Children(value)[path[0]], path[1..], inner);
      }
    }
    forall i | 0 <= i < |Children(value)| && RefersInside(Children(value)[i], defsKey, name)
      ensures RefersInside(value, defsKey, name)
    {
      var path, inner :| LeadsTo(Children(value)[i], path, inner) && RefersTo(inner, defsKey, name);
      assert ([i] + path)[1..] == path;
      assert LeadsTo(value, [i] + path, inner);
    }
  }

  ghost predicate Enters(value: Json, i: nat, defsKey: string)
    requires i < |Children(value)|
  {
    value.Obj? ==> value.fields[i].key !in {defsKey, "$defs", "definitions"}
  }

  lemma OutsideIff(value: Json, defsKey: string, name: string)
    ensures RefersOutside(value, defsKey, name) <==>
            || RefersTo(value, defsKey, name)
            || exists i :: 0 <= i < |Children(value)| && Enters(value, i, defsKey)
                           && RefersOutside(Children(value)[i], defsKey, name)
  {
    hide RefersTo;
    if RefersTo(value, defsKey, name) {
      assert LeadsTo(value, [], value) && StaysOutside(value, [], defsKey);
    }
    if RefersOutside(value, defsKey, name) {
      var path, inner :|
        LeadsTo(value, path, inner) && StaysOutside(value, path, defsKey) && RefersTo(inner, defsKey, name);
      if path != [] {
        assert LeadsTo(Children(value)[path[0]], path[1..], inner);
        assert StaysOutside(Children(value)[path[0]], path[1..], defsKey);
      }
    }
    forall i | 0 <= i < |Children(value)| && Enters(value, i, defsKey)
               && RefersOutside(Children(value)[i], defsKey, name)
      ensures RefersOutside(value, defsKey, name)
    {
      var path, inner :|
        && LeadsTo(Children(value)[i], path, inner) && StaysOutside(Children(value)[i], path, defsKey)
        && RefersTo(inner, defsKey, name);
      assert ([i] + path)[1..] == path;
      assert LeadsTo(value, [i] + path, inner) && StaysOutside(value, [i] + path, defsKey);
    }
  }

  /** The references in a value are those of the values inside it. */
  lemma {:induction false} RefsIff(value: Json, defsKey: string, name: string)
    ensures name in Refs(value, defsKey) <==> RefersInside(value, defsKey, name)
    decreases value, 0
  {
    RefHereIff(value, defsKey, name);
    InsideIff(value, defsKey, name);
    hide RefersTo, RefersInside, RefHere;
    match value
    case Obj(fields) =>
      FieldRefsIff(fields, defsKey, name);
      forall i | 0 <= i < |fields|
        ensures Children(value)[i] == fields[i].value
      {
      }
      if i :| 0 <= i < |fields| && RefersInside(fields[i].value, defsKey, name) {
        assert RefersInside(Children(value)[i], defsKey, name);
      }
    case Arr(items) =>
      ItemRefsIff(items, defsKey, name);
      assert Children(value) == items;
    case _ =>
  }

  lemma {:induction false} FieldRefsIff(fields: seq<Field>, defsKey: string, name: string)
    ensures name in FieldRefs(fields, defsKey) <==>
            exists i :: 0 <= i < |fields| && RefersInside(fields[i].value, defsKey, name)
    decreases fields, 1
  {
    hide RefersInside, Refs;
    if fields == [] {
    } else {
      RefsIff(fields[0].value, defsKey, name);
      FieldRefsIff(fields[1..], defsKey, name);
      assert forall i :: 0 <= i < |fields| - 1 ==> fields[1..][i] == fields[i + 1];
      if i :| 0 <= i < |fields| && RefersInside(fields[i].value, defsKey, name) {
        assert i > 0 ==> RefersInside(fields[1..][i - 1].value, defsKey, name);
      }
    }
  }

  lemma {:induction false} ItemRefsIff(items: seq<Json>, defsKey: string, name: string)
    ensures name in ItemRefs(items, defsKey) <==>
            exists i :: 0 <= i < |items| && RefersInside(items[i], defsKey, name)
    decreases items, 1
  {
    hide RefersInside, Refs;
    if items == [] {
    } else {
      RefsIff(items[0], defsKey, name);
      ItemRefsIff(items[1..], defsKey, name);
      assert forall i :: 0 <= i < |items| - 1 ==> items[1..][i] == items[i + 1];
      if i :| 0 <= i < |items| && RefersInside(items[i], defsKey, name) {
        assert i > 0 ==> RefersInside(items[1..][i - 1], defsKey, name);
      }
    }
  }

  /** The root's own references are those of the values inside it but outside its definition maps. */
  lemma {:induction false} OuterRefsIff(value: Json, defsKey: string, name: string)
    ensures name in OuterRefs(value, defsKey) <==> RefersOutside(value, defsKey, name)
    decreases value, 0
  {
    RefHereIff(value, defsKey, name);
    OutsideIff(value, defsKey, name);
    hide RefersTo, RefersOutside, RefHere;
    match value
    case Obj(fields) =>
      OuterFieldRefsIff(fields, defsKey, name);
      forall i | 0 <= i < |fields|
        ensures Children(value)[i] == fields[i].value
      {
      }
      if i :| 0 <= i < |fields| && Enters(value, i, defsKey) && RefersOutside(fields[i].value, defsKey, name) {
        assert RefersOutside(Children(value)[i], defsKey, name);
      }
    case Arr(items) =>
      OuterItemRefsIff(items, defsKey, name);
      assert Children(value) == items;
      assert forall i :: 0 <= i < |items| ==> Enters(value, i, defsKey);
    case _ =>
  }

  lemma {:induction false} OuterFieldRefsIff(fields: seq<Field>, defsKey: string, name: string)
    ensures name in OuterFieldRefs(fields, defsKey) <==>
            exists i :: 0 <= i < |fields| && fields[i].key !in {defsKey, "$defs", "definitions"}
                        && RefersOutside(fields[i].value, defsKey, name)
    decreases fields, 1
  {
    hide RefersOutside, OuterRefs;
    if fields == [] {
    } else {
      OuterRefsIff(fields[0].value, defsKey, name);
      OuterFieldRefsIff(fields[1..], defsKey, name);
      assert forall i :: 0 <= i < |fields| - 1 ==> fields[1..][i] == fields[i + 1];
      if i :| 0 <= i < |fields| && fields[i].key !in {defsKey, "$defs", "definitions"}
              && RefersOutside(fields[i].value, defsKey, name) {
        assert i > 0 ==> RefersOutside(fields[1..][i - 1].value, defsKey, name);
      }
    }
  }

  lemma {:induction false} OuterItemRefsIff(items: seq<Json>, defsKey: string, name: string)
    ensures name in OuterItemRefs(items, defsKey) <==>
            exists i :: 0 <= i < |items| && RefersOutside(items[i], defsKey, name)
    decreases items, 1
  {
    hide RefersOutside, OuterRefs;
    if items == [] {
    } else {
      OuterRefsIff(items[0], defsKey, name);
      OuterItemRefsIff(items[1..], defsKey, name);
      assert forall i :: 0 <= i < |items| - 1 ==> items[1..][i] == items[i + 1];
      if i :| 0 <= i < |items| && RefersOutside(items[i], defsKey, name) {
        assert i > 0 ==> RefersOutside(items[1..][i - 1], defsKey, name);
      }
    }
  }

  // ---------- Chains of references ----------

  /** The schema refers to the first definition of the chain, and each of them to the next. */
  ghost predicate Chain(schema: Json, definitions: seq<Field>, defsKey: string, chain: seq<string>) {
    && chain != []
    && RefersOutside(schema, defsKey, chain[0])
    && forall i :: 0 <= i < |chain| - 1 ==>
         && Get(definitions, chain[i]).Some?
         && RefersInside(Get(definitions, chain[i]).value, defsKey, chain[i + 1])
  }

  ghost predicate ReachedBy(schema: Json, definitions: seq<Field>, defsKey: string, name: string) {
    exists chain :: Chain(schema, definitions, defsKey, chain) && chain[|chain| - 1] == name
  }

  lemma {:induction false} ChainInside(schema: Json, definitions: seq<Field>, defsKey: string, chain: seq<string>,
                                       names: set<string>)
    requires Chain(schema, definitions, defsKey, chain)
    requires OuterRefs(schema, defsKey) <= names && Closed(definitions, names, defsKey)
    ensures chain[|chain| - 1] in names
    decreases |chain|
  {
    hide RefersInside, RefersOutside, Refs, OuterRefs;
    var last := |chain| - 1;
    if last == 0 {
      OuterRefsIff(schema, defsKey, chain[0]);
    } else {
      var front := chain[..last];
      assert Chain(schema, definitions, defsKey, front) by {
        assert forall i :: 0 <= i < last ==> front[i] == chain[i];
      }
      ChainInside(schema, definitions, defsKey, front, names);
      assert front[last - 1] == chain[last - 1];
      RefsIff(Get(definitions, chain[last - 1]).value, defsKey, chain[last]);
      assert chain[last] in DefinitionRefs(definitions, chain[last - 1], defsKey);
    }
  }

  lemma ChainGrows(schema: Json, definitions: seq<Field>, defsKey: string, name: string, next: string)
    requires ReachedBy(schema, definitions, defsKey, name) && next in DefinitionRefs(definitions, name, defsKey)
    ensures ReachedBy(schema, definitions, defsKey, next)
  {
    hide RefersInside, RefersOutside, Refs;
    var chain :| Chain(schema, definitions, defsKey, chain) && chain[|chain| - 1] == name;
    RefsIff(Get(definitions, name).value, defsKey, next);
    var longer := chain + [next];
    assert forall i :: 0 <= i < |chain| ==> longer[i] == chain[i];
    assert Chain(schema, definitions, defsKey, longer);
    assert longer[|longer| - 1] == next;
  }

  lemma ReachedIsInside(schema: Json, definitions: seq<Field>, defsKey: string, name: string, names: set<string>)
    requires ReachedBy(schema, definitions, defsKey, name)
    requires OuterRefs(schema, defsKey) <= names && Closed(definitions, names, defsKey)
    ensures name in names
  {
    hide RefersInside, RefersOutside, OuterRefs, Closed;
    var chain :| Chain(schema, definitions, defsKey, chain) && chain[|chain| - 1] == name;
    ChainInside(schema, definitions, defsKey, chain, names);
  }

  /** The reachable definitions are those at the end of a chain of references that starts outside the definition
      maps. */
  lemma ReachableIffChain(schema: Json, definitions: seq<Field>, defsKey: string, names: set<string>, name: string)
    requires IsReachableSet(schema, definitions, defsKey, names)
    ensures name in names <==> ReachedBy(schema, definitions, defsKey, name)
  {
    hide ReachedBy, OuterRefs, Refs;
    var reached := set n | n in names && ReachedBy(schema, definitions, defsKey, n);
    forall n | n in OuterRefs(schema, defsKey)
      ensures n in reached
    {
      StartOfChain(schema, definitions, defsKey, n);
    }
    forall n | n in reached
      ensures DefinitionRefs(definitions, n, defsKey) <= reached
    {
      forall m | m in DefinitionRefs(definitions, n, defsKey)
        ensures m in reached
      {
        ChainGrows(schema, definitions, defsKey, n, m);
      }
    }
    assert names <= reached;
    if ReachedBy(schema, definitions, defsKey, name) {
      ReachedIsInside(schema, definitions, defsKey, name, names);
    }
  }

  lemma StartOfChain(schema: Json, definitions: seq<Field>, defsKey: string, name: string)
    requires name in OuterRefs(schema, defsKey)
    ensures ReachedBy(schema, definitions, defsKey, name)
  {
    hide RefersOutside, OuterRefs;
    OuterRefsIff(schema, defsKey, name);
    assert Chain(schema, definitions, defsKey, [name]);
    assert [name][|[name]| - 1] == name;
  }

  // ---------- Variants of methods ----------

  /** The schema allows one text, as its constant or, where it has no constant text, as its first enumerated
      value. */
  ghost predicate AllowsText(schema: Json, text: string) {
    || Member(schema, "const") == Some(Str(text))
    || (!(exists other :: Member(schema, "const") == Some(Str(other)))
        && exists rest :: Member(schema, "enum") == Some(Arr([Str(text)] + rest)))
  }

  /** A variant belongs to a method that its "method" property allows. */
  lemma MethodVariantIff(variant: Json, methods: set<string>)
    ensures IsMethodVariantIn(variant, methods) <==>
            exists properties, methodSchema, name ::
              && Member(variant, "properties") == Some(Obj(properties))
              && Get(properties, "method") == Some(methodSchema)
              && AllowsText(methodSchema, name) && name in methods
  {
    hide Get;
    forall schema
      ensures match StringLiteral(schema) {
                case Some(text) => forall name :: AllowsText(schema, name) <==> name == text
                case None => forall name :: !AllowsText(schema, name)
              }
    {
      LiteralIs(schema);
    }
    hide StringLiteral, AllowsText;
  }

  lemma LiteralIs(schema: Json)
    ensures match StringLiteral(schema) {
              case Some(text) => forall name :: AllowsText(schema, name) <==> name == text
              case None => forall name :: !AllowsText(schema, name)
            }
  {
    hide Get;
    match Member(schema, "const")
    case Some(Str(s)) =>
    case _ =>
      match Member(schema, "enum")
      case Some(Arr(items)) =>
        if items != [] {
          assert items == [items[0]] + items[1..];
        }
      case _ =>
  }

  // ---------- What is kept ----------

  lemma Regrouped<T>(a: seq<T>, b: seq<T>, c: seq<T>, d: seq<T>)
    ensures a + (b + c + d) == (a + b) + c + d
  {
  }

  /** Every variant is kept or dropped by itself, and those that are kept keep their order. */
  lemma {:induction false} KeptVariantsInOrder(before: seq<Json>, variant: Json, after: seq<Json>, methods: set<string>)
    ensures KeepVariants(before + [variant] + after, methods) ==
            KeepVariants(before, methods) + (if IsMethodVariantIn(variant, methods) then [] else [variant])
            + KeepVariants(after, methods)
  {
    var all := before + [variant] + after;
    var own := if IsMethodVariantIn(variant, methods) then [] else [variant];
    if before == [] {
      assert all[0] == variant && all[1..] == after;
      assert [] + own == own;
    } else {
      assert all[0] == before[0] && all[1..] == before[1..] + [variant] + after;
      KeptVariantsInOrder(before[1..], variant, after, methods);
      var first := if IsMethodVariantIn(before[0], methods) then [] else [before[0]];
      assert KeepVariants(all, methods) == first + KeepVariants(all[1..], methods);
      assert KeepVariants(before, methods) == first + KeepVariants(before[1..], methods);
      hide KeepVariants, IsMethodVariantIn;
      Regrouped(first, KeepVariants(before[1..], methods), own, KeepVariants(after, methods));
    }
  }

  /** The same for definitions. */
  lemma {:induction false} KeptDefinitionsInOrder(before: seq<Field>, definition: Field, after: seq<Field>,
                                                  names: set<string>)
    ensures KeepDefinitions(before + [definition] + after, names) ==
            KeepDefinitions(before, names) + (if definition.key in names then [definition] else [])
            + KeepDefinitions(after, names)
  {
    var all := before + [definition] + after;
    var own := if definition.key in names then [definition] else [];
    if before == [] {
      assert all[0] == definition && all[1..] == after;
      assert [] + own == own;
    } else {
      assert all[0] == before[0] && all[1..] == before[1..] + [definition] + after;
      KeptDefinitionsInOrder(before[1..], definition, after, names);
      var first := if before[0].key in names then [before[0]] else [];
      assert KeepDefinitions(all, names) == first + KeepDefinitions(all[1..], names);
      assert KeepDefinitions(before, names) == first + KeepDefinitions(before[1..], names);
      hide KeepDefinitions;
      Regrouped(first, KeepDefinitions(before[1..], names), own, KeepDefinitions(after, names));
    }
  }
}
