/** `reachable_local_definitions` and `strip_method_variants_from_json_schema`: removing variants from
    a schema and then every definition that nothing refers to any more. */
module SchemaRefs {
  import opened Wrappers
  import opened Text
  import opened Json

  // ---------- References ----------

  /** The definition that this very value refers to. */
  function RefHere(value: Json, defsKey: string): Option<string> {
    match Member(value, "$ref")
    case Some(Str(reference)) =>
      (match StripPrefix(reference, "#/" + defsKey + "/")
       case Some(name) => Some(FirstSegment(name))
       case None => None)
    case _ => None
  }

  function Singleton(name: Option<string>): set<string> {
    if name.Some? then {name.value} else {}
  }

  function FieldRefs(fields: seq<Field>, defsKey: string): set<string>
    decreases fields, 1
  {
    if fields == [] then {} else Refs(fields[0].value, defsKey) + FieldRefs(fields[1..], defsKey)
  }

  function ItemRefs(items: seq<Json>, defsKey: string): set<string>
    decreases items, 1
  {
    if items == [] then {} else Refs(items[0], defsKey) + ItemRefs(items[1..], defsKey)
  }

  /** Every definition referred to anywhere in the value. */
  function Refs(value: Json, defsKey: string): set<string>
    decreases value, 0
  {
    Singleton(RefHere(value, defsKey))
    + match value
      case Obj(fields) => FieldRefs(fields, defsKey)
      case Arr(items) => ItemRefs(items, defsKey)
      case _ => {}
  }

  predicate IsDefinitionMap(key: string, defsKey: string) {
    key == defsKey || key == "$defs" || key == "definitions"
  }

  function OuterFieldRefs(fields: seq<Field>, defsKey: string): set<string>
    decreases fields, 1
  {
    if fields == [] then {}
    else
      (if IsDefinitionMap(fields[0].key, defsKey) then {} else OuterRefs(fields[0].value, defsKey))
      + OuterFieldRefs(fields[1..], defsKey)
  }

  function OuterItemRefs(items: seq<Json>, defsKey: string): set<string>
    decreases items, 1
  {
    if items == [] then {} else OuterRefs(items[0], defsKey) + OuterItemRefs(items[1..], defsKey)
  }

  /** Every definition referred to outside definition maps. */
  function OuterRefs(value: Json, defsKey: string): set<string>
    decreases value, 0
  {
    Singleton(RefHere(value, defsKey))
    + match value
      case Obj(fields) => OuterFieldRefs(fields, defsKey)
      case Arr(items) => OuterItemRefs(items, defsKey)
      case _ => {}
  }

  // ---------- Collecting references ----------

  /** No two equal names in the queue from `from` on. */
  predicate NoRepeats(queue: seq<string>) {
    forall i, j :: 0 <= i < j < |queue| ==> queue[i] != queue[j]
  }

  function Names(queue: seq<string>): set<string> {
    set n | n in queue
  }

  /** What every collector does: names that are new are marked and queued once. */
  ghost predicate Collected(queue: seq<string>, reachable: set<string>, found: set<string>,
                            queue': seq<string>, reachable': set<string>)
  {
    && reachable' == reachable + found
    && queue <= queue'
    && Names(queue'[|queue|..]) == found - reachable
    && NoRepeats(queue'[|queue|..])
  }

  lemma CollectedTwice(q0: seq<string>, r0: set<string>, f1: set<string>, q1: seq<string>, r1: set<string>,
                       f2: set<string>, q2: seq<string>, r2: set<string>)
    requires Collected(q0, r0, f1, q1, r1) && Collected(q1, r1, f2, q2, r2)
    ensures Collected(q0, r0, f1 + f2, q2, r2)
  {
    var a, b := q1[|q0|..], q2[|q1|..];
    var all := q2[|q0|..];
    assert all == a + b;
    forall n
      ensures n in Names(all) <==> n in (f1 + f2) - r0
    {
      assert n in all <==> n in a || n in b;
      assert n in a <==> n in Names(a);
      assert n in b <==> n in Names(b);
    }
    forall i, j | 0 <= i < j < |all|
      ensures all[i] != all[j]
    {
      if i < |a| <= j {
        assert a[i] in Names(a) && b[j - |a|] in Names(b);
      }
    }
  }

  lemma CollectedNothing(queue: seq<string>, reachable: set<string>)
    ensures Collected(queue, reachable, {}, queue, reachable)
  {
    assert queue[|queue|..] == [];
  }

  /** `collect_local_definition_ref_here`. */
  method CollectRefHere(value: Json, defsKey: string, queue: seq<string>, reachable: set<string>)
    returns (queue': seq<string>, reachable': set<string>)
    ensures Collected(queue, reachable, Singleton(RefHere(value, defsKey)), queue', reachable')
  {
    queue', reachable' := queue, reachable;
    var reference := RefHere(value, defsKey);
    if reference.Some? && reference.value !in reachable {
      reachable' := reachable + {reference.value};
      queue' := queue + [reference.value];
      assert queue'[|queue|..] == [reference.value];
    } else {
      assert queue'[|queue|..] == [];
    }
  }

  method CollectFieldRefs(fields: seq<Field>, defsKey: string, queue: seq<string>, reachable: set<string>)
    returns (queue': seq<string>, reachable': set<string>)
    ensures Collected(queue, reachable, FieldRefs(fields, defsKey), queue', reachable')
    decreases fields, 1
  {
    queue', reachable' := queue, reachable;
    if fields == [] {
      CollectedNothing(queue, reachable);
    } else {
      var q1, r1 := CollectRefs(fields[0].value, defsKey, queue, reachable);
      queue', reachable' := CollectFieldRefs(fields[1..], defsKey, q1, r1);
      CollectedTwice(queue, reachable, Refs(fields[0].value, defsKey), q1, r1,
                     FieldRefs(fields[1..], defsKey), queue', reachable');
    }
  }

  method CollectItemRefs(items: seq<Json>, defsKey: string, queue: seq<string>, reachable: set<string>)
    returns (queue': seq<string>, reachable': set<string>)
    ensures Collected(queue, reachable, ItemRefs(items, defsKey), queue', reachable')
    decreases items, 1
  {
    queue', reachable' := queue, reachable;
    if items == [] {
      CollectedNothing(queue, reachable);
    } else {
      var q1, r1 := CollectRefs(items[0], defsKey, queue, reachable);
      queue', reachable' := CollectItemRefs(items[1..], defsKey, q1, r1);
      CollectedTwice(queue, reachable, Refs(items[0], defsKey), q1, r1,
                     ItemRefs(items[1..], defsKey), queue', reachable');
    }
  }

  /** `collect_local_definition_refs`: the value itself first, then its children. */
  method CollectRefs(value: Json, defsKey: string, queue: seq<string>, reachable: set<string>)
    returns (queue': seq<string>, reachable': set<string>)
    ensures Collected(queue, reachable, Refs(value, defsKey), queue', reachable')
    decreases value, 0
  {
    queue', reachable' := CollectRefHere(value, defsKey, queue, reachable);
    ghost var q1, r1 := queue', reachable';
    match value {
      case Obj(fields) =>
        queue', reachable' := CollectFieldRefs(fields, defsKey, queue', reachable');
        CollectedTwice(queue, reachable, Singleton(RefHere(value, defsKey)), q1, r1,
                       FieldRefs(fields, defsKey), queue', reachable');
      case Arr(items) =>
        queue', reachable' := CollectItemRefs(items, defsKey, queue', reachable');
        CollectedTwice(queue, reachable, Singleton(RefHere(value, defsKey)), q1, r1,
                       ItemRefs(items, defsKey), queue', reachable');
      case _ =>
        assert Refs(value, defsKey) == Singleton(RefHere(value, defsKey)) + {};
    }
  }

  method CollectOuterFieldRefs(fields: seq<Field>, defsKey: string, queue: seq<string>, reachable: set<string>)
    returns (queue': seq<string>, reachable': set<string>)
    ensures Collected(queue, reachable, OuterFieldRefs(fields, defsKey), queue', reachable')
    decreases fields, 1
  {
    queue', reachable' := queue, reachable;
    CollectedNothing(queue, reachable);
    if fields != [] {
      ghost var first: set<string> := {};
      if !IsDefinitionMap(fields[0].key, defsKey) {
        queue', reachable' := CollectOuterRefs(fields[0].value, defsKey, queue, reachable);
        first := OuterRefs(fields[0].value, defsKey);
      }
      var q1, r1 := queue', reachable';
      queue', reachable' := CollectOuterFieldRefs(fields[1..], defsKey, q1, r1);
      CollectedTwice(queue, reachable, first, q1, r1, OuterFieldRefs(fields[1..], defsKey), queue', reachable');
    }
  }

  method CollectOuterItemRefs(items: seq<Json>, defsKey: string, queue: seq<string>, reachable: set<string>)
    returns (queue': seq<string>, reachable': set<string>)
    ensures Collected(queue, reachable, OuterItemRefs(items, defsKey), queue', reachable')
    decreases items, 1
  {
    queue', reachable' := queue, reachable;
    if items == [] {
      CollectedNothing(queue, reachable);
    } else {
      var q1, r1 := CollectOuterRefs(items[0], defsKey, queue, reachable);
      queue', reachable' := CollectOuterItemRefs(items[1..], defsKey, q1, r1);
      CollectedTwice(queue, reachable, OuterRefs(items[0], defsKey), q1, r1,
                     OuterItemRefs(items[1..], defsKey), queue', reachable');
    }
  }

  /** `collect_local_definition_refs_excluding_maps`: the children first, then the value itself. */
  method CollectOuterRefs(value: Json, defsKey: string, queue: seq<string>, reachable: set<string>)
    returns (queue': seq<string>, reachable': set<string>)
    ensures Collected(queue, reachable, OuterRefs(value, defsKey), queue', reachable')
    decreases value, 0
  {
    ghost var inner: set<string> := {};
    queue', reachable' := queue, reachable;
    CollectedNothing(queue, reachable);
    match value {
      case Obj(fields) =>
        queue', reachable' := CollectOuterFieldRefs(fields, defsKey, queue, reachable);
        inner := OuterFieldRefs(fields, defsKey);
      case Arr(items) =>
        queue', reachable' := CollectOuterItemRefs(items, defsKey, queue, reachable);
        inner := OuterItemRefs(items, defsKey);
      case _ =>
    }
    var q1, r1 := queue', reachable';
    queue', reachable' := CollectRefHere(value, defsKey, q1, r1);
    CollectedTwice(queue, reachable, inner, q1, r1, Singleton(RefHere(value, defsKey)), queue', reachable');
    assert OuterRefs(value, defsKey) == inner + Singleton(RefHere(value, defsKey));
  }

  // ---------- Reachability ----------

  /** The references of the definition of that name, if there is one. */
  function DefinitionRefs(definitions: seq<Field>, name: string, defsKey: string): set<string> {
    match Get(definitions, name)
    case Some(definition) => Refs(definition, defsKey)
    case None => {}
  }

  ghost predicate Closed(definitions: seq<Field>, names: set<string>, defsKey: string) {
    forall n :: n in names ==> DefinitionRefs(definitions, n, defsKey) <= names
  }

  /** The names reached from the root's own references through the definitions, and no others. */
  ghost predicate IsReachableSet(schema: Json, definitions: seq<Field>, defsKey: string, names: set<string>) {
    && OuterRefs(schema, defsKey) <= names
    && Closed(definitions, names, defsKey)
    && forall other: set<string> ::
         OuterRefs(schema, defsKey) <= other && Closed(definitions, other, defsKey) ==> names <= other
  }

  /** All names that could ever be queued. */
  function Universe(schema: Json, definitions: seq<Field>, defsKey: string): set<string> {
    OuterRefs(schema, defsKey) + FieldRefs(definitions, defsKey)
  }

  lemma {:induction false} DefinitionRefsInFields(definitions: seq<Field>, name: string, defsKey: string)
    ensures DefinitionRefs(definitions, name, defsKey) <= FieldRefs(definitions, defsKey)
  {
    if definitions != [] && definitions[0].key != name {
      DefinitionRefsInFields(definitions[1..], name, defsKey);
    }
  }

  /** One round of the worklist: the queue is still free of repeats, what is new is queued, and of the
      marked names exactly `name` has newly left the queue. */
  lemma WorklistStep(before: seq<string>, seen: set<string>, name: string, found: set<string>,
                     queue: seq<string>, reachable: set<string>)
    requires before != [] && name == before[|before| - 1]
    requires NoRepeats(before) && Names(before) <= seen
    requires Collected(before[..|before| - 1], seen, found, queue, reachable)
    ensures NoRepeats(queue) && Names(queue) <= reachable
    ensures forall n :: n in reachable - Names(queue) ==> n == name || n in seen - Names(before)
    ensures reachable == seen ==> |queue| < |before|
    ensures reachable == seen + found
  {
    var popped := before[..|before| - 1];
    var added := queue[|popped|..];
    assert queue == popped + added;
    assert before == popped + [name];
    forall n
      ensures n in Names(queue) <==> n in Names(popped) || n in found - seen
    {
      assert n in queue <==> n in popped || n in added;
      assert n in added <==> n in Names(added);
    }
    forall i, j | 0 <= i < j < |queue|
      ensures queue[i] != queue[j]
    {
      if i < |popped| <= j {
        assert popped[i] in Names(before) by { assert before[i] in before; }
        assert added[j - |popped|] in Names(added);
      } else if j < |popped| {
        assert before[i] != before[j];
      } else {
        assert added[i - |popped|] != added[j - |popped|];
      }
    }
    assert forall n :: n in Names(before) <==> n in Names(popped) || n == name;
    assert added != [] ==> added[0] in Names(added);
  }

  /** The worklist: names are taken from the end of the queue, and each name is queued at most once, so
      that the loop ends. */
  method ReachableLocalDefinitions(schema: Json, defsKey: string) returns (reachable: set<string>)
    ensures match Member(schema, defsKey) {
              case Some(Obj(definitions)) => IsReachableSet(schema, definitions, defsKey, reachable)
              case _ => reachable == {}
            }
  {
    var member := Member(schema, defsKey);
    if member.None? || !member.value.Obj? {
      return {};
    }
    var definitions := member.value.fields;
    var queue: seq<string>;
    queue, reachable := CollectOuterRefs(schema, defsKey, [], {});
    assert queue[0..] == queue;
    ghost var universe := Universe(schema, definitions, defsKey);
    while queue != []
      invariant NoRepeats(queue) && Names(queue) <= reachable <= universe
      invariant OuterRefs(schema, defsKey) <= reachable
      invariant forall n :: n in reachable - Names(queue) ==> DefinitionRefs(definitions, n, defsKey) <= reachable
      invariant forall other: set<string> ::
          OuterRefs(schema, defsKey) <= other && Closed(definitions, other, defsKey) ==> reachable <= other
      decreases universe - reachable, |queue|
    {
      hide Refs, OuterRefs, FieldRefs;
      var name := queue[|queue| - 1];
      ghost var before, seen := queue, reachable;
      queue := queue[..|queue| - 1];
      ghost var popped := queue;
      var definition := Get(definitions, name);
      if definition.Some? {
        queue, reachable := CollectRefs(definition.value, defsKey, queue, reachable);
        DefinitionRefsInFields(definitions, name, defsKey);
      } else {
        CollectedNothing(queue, reachable);
      }
      WorklistStep(before, seen, name, DefinitionRefs(definitions, name, defsKey), queue, reachable);
      forall other: set<string> | OuterRefs(schema, defsKey) <= other && Closed(definitions, other, defsKey)
        ensures reachable <= other
      {
        assert name in Names(before);
      }
      if reachable == seen {
        assert |queue| < |before|;
      } else {
        assert universe - reachable < universe - seen;
      }
    }
    assert Names(queue) == {};
  }

  /** A schema has only one set of reachable names. */
  lemma ReachableSetIsUnique(schema: Json, definitions: seq<Field>, defsKey: string,
                             one: set<string>, other: set<string>)
    requires IsReachableSet(schema, definitions, defsKey, one)
    requires IsReachableSet(schema, definitions, defsKey, other)
    ensures one == other
  {
    assert one <= other && other <= one;
  }

  // ---------- Stripping variants ----------

  /** `string_literal`: the constant, or else the first of the enumerated values, if it is a string. */
  function StringLiteral(schema: Json): Option<string> {
    match Member(schema, "const")
    case Some(Str(s)) => Some(s)
    case _ =>
      match Member(schema, "enum")
      case Some(Arr(items)) => if items != [] && items[0].Str? then Some(items[0].s) else None
      case _ => None
  }

  /** `is_method_variant_in_set`. */
  predicate IsMethodVariantIn(variant: Json, methods: set<string>) {
    match Member(variant, "properties")
    case Some(Obj(properties)) =>
      (match Get(properties, "method")
       case Some(methodSchema) =>
         var literal := StringLiteral(methodSchema);
         literal.Some? && literal.value in methods
       case None => false)
    case _ => false
  }

  function KeepVariants(variants: seq<Json>, methods: set<string>): seq<Json> {
    if variants == [] then []
    else (if IsMethodVariantIn(variants[0], methods) then [] else [variants[0]]) + KeepVariants(variants[1..], methods)
  }

  function KeepDefinitions(definitions: seq<Field>, names: set<string>): seq<Field> {
    if definitions == [] then []
    else (if definitions[0].key in names then [definitions[0]] else []) + KeepDefinitions(definitions[1..], names)
  }

  const DEFINITIONS := "definitions"

  predicate HasVariants(schema: Json) {
    Member(schema, "oneOf").Some? && Member(schema, "oneOf").value.Arr?
  }

  predicate HasDefinitions(schema: Json) {
    Member(schema, DEFINITIONS).Some? && Member(schema, DEFINITIONS).value.Obj?
  }

  function Definitions(schema: Json): seq<Field>
    requires HasDefinitions(schema)
  {
    Member(schema, DEFINITIONS).value.fields
  }

  /** The schema without the variants of the given methods. */
  function WithoutVariants(schema: Json, methods: set<string>): Json
    requires HasVariants(schema)
  {
    Obj(Replace(schema.fields, "oneOf", Arr(KeepVariants(Member(schema, "oneOf").value.items, methods))))
  }

  /** A schema with fewer definitions. */
  function WithDefinitions(schema: Json, definitions: seq<Field>): Json
    requires HasDefinitions(schema)
  {
    Obj(Replace(schema.fields, DEFINITIONS, Obj(definitions)))
  }

  lemma {:induction false} KeptVariants(variants: seq<Json>, methods: set<string>, variant: Json)
    ensures variant in KeepVariants(variants, methods) <==>
            variant in variants && !IsMethodVariantIn(variant, methods)
  {
    if variants == [] {
    } else {
      KeptVariants(variants[1..], methods, variant);
      assert variants == [variants[0]] + variants[1..];
    }
  }

  lemma {:induction false} KeptDefinitions(definitions: seq<Field>, names: set<string>, n: string)
    ensures Get(KeepDefinitions(definitions, names), n) == if n in names then Get(definitions, n) else None
  {
    if definitions == [] {
    } else {
      KeptDefinitions(definitions[1..], names, n);
      if definitions[0].key in names {
        assert KeepDefinitions(definitions, names)[1..] == KeepDefinitions(definitions[1..], names);
      } else {
        assert KeepDefinitions(definitions, names) == KeepDefinitions(definitions[1..], names);
      }
    }
  }

  lemma {:induction false} OuterFieldsIgnoreDefinitions(fields: seq<Field>, value: Json)
    ensures OuterFieldRefs(Replace(fields, DEFINITIONS, value), DEFINITIONS) == OuterFieldRefs(fields, DEFINITIONS)
  {
    if fields == [] {
    } else {
      if fields[0].key == DEFINITIONS {
        assert Replace(fields, DEFINITIONS, value)[1..] == fields[1..];
      } else {
        OuterFieldsIgnoreDefinitions(fields[1..], value);
        assert Replace(fields, DEFINITIONS, value)[1..] == Replace(fields[1..], DEFINITIONS, value);
      }
    }
  }

  /** Dropping definitions does not change what the root itself refers to. */
  lemma OuterRefsIgnoreDefinitions(schema: Json, definitions: seq<Field>)
    requires HasDefinitions(schema)
    ensures OuterRefs(WithDefinitions(schema, definitions), DEFINITIONS) == OuterRefs(schema, DEFINITIONS)
  {
    OuterFieldsIgnoreDefinitions(schema.fields, Obj(definitions));
    GetAfterReplace(schema.fields, DEFINITIONS, Obj(definitions), "$ref");
    assert DEFINITIONS[0] == 'd';
  }

  /** Definitions that hold every definition the root or one of them refers to, as far as it exists. */
  ghost predicate Resolves(schema: Json, definitions: seq<Field>, kept: set<string>) {
    && (forall n :: n in OuterRefs(schema, DEFINITIONS) && Get(definitions, n).Some? ==> n in kept)
    && (forall d, n :: d in kept && n in DefinitionRefs(definitions, d, DEFINITIONS) && Get(definitions, n).Some? ==>
          n in kept)
  }

  /** Each definition that is left is as it was, and every reference from the root or from a definition
      that is left resolves to what it resolved to before. */
  ghost predicate ReferencesKept(before: Json, after: Json)
    requires HasDefinitions(before)
  {
    && HasDefinitions(after)
    && (forall n :: Get(Definitions(after), n).Some? ==> Get(Definitions(after), n) == Get(Definitions(before), n))
    && (forall n :: n in OuterRefs(after, DEFINITIONS) ==>
          Get(Definitions(after), n) == Get(Definitions(before), n))
    && (forall d, n :: n in DefinitionRefs(Definitions(after), d, DEFINITIONS) ==>
          Get(Definitions(after), n) == Get(Definitions(before), n))
  }

  /** Keeping only the reachable definitions breaks no reference, and keeps no unreachable one. */
  lemma StrippedReferencesResolve(pruned: Json, names: set<string>)
    requires HasDefinitions(pruned)
    requires IsReachableSet(pruned, Definitions(pruned), DEFINITIONS, names)
    ensures var stripped := WithDefinitions(pruned, KeepDefinitions(Definitions(pruned), names));
            && ReferencesKept(pruned, stripped)
            && forall n :: Get(Definitions(stripped), n).Some? ==> n in names
  {
    var definitions := Definitions(pruned);
    var kept := KeepDefinitions(definitions, names);
    var stripped := WithDefinitions(pruned, kept);
    GetAfterReplace(pruned.fields, DEFINITIONS, Obj(kept), DEFINITIONS);
    OuterRefsIgnoreDefinitions(pruned, kept);
    forall n
      ensures Get(kept, n) == if n in names then Get(definitions, n) else None
    {
      KeptDefinitions(definitions, names, n);
    }
    assert forall d :: DefinitionRefs(kept, d, DEFINITIONS) <= names;
  }

  /** No smaller set of definitions would do: whatever holds all that is needed holds every definition
      that stripping leaves. */
  lemma StrippedIsMinimal(pruned: Json, names: set<string>, enough: set<string>, n: string)
    requires HasDefinitions(pruned)
    requires IsReachableSet(pruned, Definitions(pruned), DEFINITIONS, names)
    requires Resolves(pruned, Definitions(pruned), enough)
    ensures Get(KeepDefinitions(Definitions(pruned), names), n).Some? ==> n in enough
  {
    var definitions := Definitions(pruned);
    var undefined := set m | m in names && Get(definitions, m).None?;
    var other := enough * names + undefined;
    assert OuterRefs(pruned, DEFINITIONS) <= other;
    forall m | m in other
      ensures DefinitionRefs(definitions, m, DEFINITIONS) <= other
    {
      assert DefinitionRefs(definitions, m, DEFINITIONS) <= names;
    }
    assert names <= other;
    KeptDefinitions(definitions, names, n);
  }

  /** Removing variants touches no definition. */
  lemma VariantsAreNotDefinitions(schema: Json, methods: set<string>)
    requires HasVariants(schema)
    ensures Member(WithoutVariants(schema, methods), DEFINITIONS) == Member(schema, DEFINITIONS)
  {
    GetAfterReplace(schema.fields, "oneOf",
                    Arr(KeepVariants(Member(schema, "oneOf").value.items, methods)), DEFINITIONS);
    assert DEFINITIONS[0] == 'd';
  }

  /** A schema without a `oneOf` array is returned as it is. Otherwise the variants of the methods go,
      and with them exactly the definitions that are no longer reachable. */
  method StripMethodVariants(schema: Json, methods: set<string>) returns (stripped: Json)
    ensures !HasVariants(schema) ==> stripped == schema
    ensures HasVariants(schema) ==>
              var pruned := WithoutVariants(schema, methods);
              if HasDefinitions(pruned) then
                HasDefinitions(schema) && Definitions(pruned) == Definitions(schema) &&
                ReferencesKept(pruned, stripped) &&
                exists names :: IsReachableSet(pruned, Definitions(pruned), DEFINITIONS, names)
                                && stripped == WithDefinitions(pruned, KeepDefinitions(Definitions(pruned), names))
              else stripped == pruned
  {
    var oneOf := Member(schema, "oneOf");
    if oneOf.None? || !oneOf.value.Arr? {
      return schema;
    }
    stripped := Obj(Replace(schema.fields, "oneOf", Arr(KeepVariants(oneOf.value.items, methods))));
    ghost var pruned := WithoutVariants(schema, methods);
    assert stripped == pruned;
    var reachable := ReachableLocalDefinitions(stripped, DEFINITIONS);
    var definitions := Member(stripped, DEFINITIONS);
    if definitions.Some? && definitions.value.Obj? {
      stripped := Obj(Replace(stripped.fields, DEFINITIONS, Obj(KeepDefinitions(definitions.value.fields, reachable))));
      assert IsReachableSet(pruned, Definitions(pruned), DEFINITIONS, reachable);
      VariantsAreNotDefinitions(schema, methods);
      StrippedReferencesResolve(pruned, reachable);
      assert stripped == WithDefinitions(pruned, KeepDefinitions(Definitions(pruned), reachable));
    }
  }
}
