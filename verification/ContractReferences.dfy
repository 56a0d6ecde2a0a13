/** What a document refers to, read off the document itself, and the proof that the pruning
    collects and follows exactly those references. */
module ContractReferences {
  import opened Wrappers
  import opened Json
  import opened ReferenceGraph
  import opened ContractPrune

  /** One step into a value: a key of a dict or a position of a list. */
  datatype Hop = Key(key: string) | Position(index: nat)

  function Into(node: Json, hop: Hop): (child: Option<Json>)
    ensures child.Some? ==> child.value < node
  {
    match hop
    case Key(key) => if node.Obj? && key in node.fields then Some(node.fields[key]) else None
    case Position(index) => if node.Arr? && index < |node.items| then Some(node.items[index]) else None
  }

  function GoTo(node: Json, hops: seq<Hop>): Option<Json>
    decreases |hops|
  {
    if hops == [] then Some(node)
    else
      var child := Into(node, hops[0]);
      if child.None? then None else GoTo(child.value, hops[1..])
  }

  /** The node is a dict whose `$ref` is the reference to a component schema of that name. */
  predicate IsReference(node: Json, name: string) {
    && node.Obj? && "$ref" in node.fields && node.fields["$ref"] == Str("#/components/schemas/" + name)
    && name != "" && '/' !in name
  }

  /** Somewhere in the value there is such a dict. */
  ghost predicate RefersTo(node: Json, name: string) {
    exists hops :: GoTo(node, hops).Some? && IsReference(GoTo(node, hops).value, name)
  }

  lemma RefNameMeans(ref: string, name: string)
    ensures RefName(ref) == Some(name) <==>
            ref == "#/components/schemas/" + name && name != "" && '/' !in name
  {
    var prefix := "#/components/schemas/";
    if prefix <= ref {
      assert ref == prefix + ref[|prefix|..];
    }
    assert (prefix + name)[|prefix|..] == name;
  }

  lemma OwnRefMeans(node: Json, name: string)
    ensures name in OwnRef(node) <==> IsReference(node, name)
  {
    if node.Obj? && "$ref" in node.fields && node.fields["$ref"].Str? {
      RefNameMeans(node.fields["$ref"].text, name);
    }
  }

  lemma RefersThrough(node: Json, hop: Hop, name: string)
    requires Into(node, hop).Some? && RefersTo(Into(node, hop).value, name)
    ensures RefersTo(node, name)
  {
    var hops :| GoTo(Into(node, hop).value, hops).Some? && IsReference(GoTo(Into(node, hop).value, hops).value, name);
    assert ([hop] + hops)[1..] == hops;
    assert GoTo(node, [hop] + hops) == GoTo(Into(node, hop).value, hops);
  }

  lemma {:induction false} CollectedIsReferred(node: Json, name: string)
    requires name in CollectRefs(node)
    ensures RefersTo(node, name)
    decreases node
  {
    OwnRefMeans(node, name);
    if name in OwnRef(node) {
      assert GoTo(node, []) == Some(node);
    } else if node.Obj? {
      var key :| key in node.fields && name in CollectRefs(node.fields[key]);
      CollectedIsReferred(node.fields[key], name);
      RefersThrough(node, Key(key), name);
    } else {
      var i :| 0 <= i < |node.items| && name in CollectRefs(node.items[i]);
      CollectedIsReferred(node.items[i], name);
      RefersThrough(node, Position(i), name);
    }
  }

  lemma {:induction false} ReferredIsCollected(node: Json, hops: seq<Hop>, name: string)
    requires GoTo(node, hops).Some? && IsReference(GoTo(node, hops).value, name)
    ensures name in CollectRefs(node)
    decreases |hops|
  {
    if hops == [] {
      OwnRefMeans(node, name);
    } else {
      ReferredIsCollected(Into(node, hops[0]).value, hops[1..], name);
    }
  }

  /** The script collects exactly the names a value refers to, wherever in it they stand. */
  lemma CollectRefsIsExact(node: Json, name: string)
    ensures name in CollectRefs(node) <==> RefersTo(node, name)
  {
    if name in CollectRefs(node) {
      CollectedIsReferred(node, name);
    }
    if hops :| GoTo(node, hops).Some? && IsReference(GoTo(node, hops).value, name) {
      ReferredIsCollected(node, hops, name);
    }
  }

  /** The schema defined under a name, if there is one. */
  predicate Defines(document: Json, name: string, schema: Json) {
    var schemas := Get(Get(document, "components"), "schemas");
    schemas.Obj? && name in schemas.fields && schemas.fields[name] == schema
  }

  /** Names of defined schemas, the first referred to by the paths and each by the schema before it. */
  ghost predicate IsReferenceChain(document: Json, names: seq<string>, schemas: seq<Json>) {
    && names != [] && |schemas| == |names| && RefersTo(Get(document, "paths"), names[0])
    && (forall i | 0 <= i < |names| :: Defines(document, names[i], schemas[i]))
    && (forall i | 0 < i < |names| :: RefersTo(schemas[i - 1], names[i]))
  }

  lemma SchemasOfDefines(document: Json, name: string)
    ensures name in SchemasOf(document) ==> Defines(document, name, SchemasOf(document)[name])
    ensures forall schema | Defines(document, name, schema) ::
              name in SchemasOf(document) && SchemasOf(document)[name] == schema
  {}

  lemma ChainIsReferences(document: Json, names: seq<string>) returns (schemas: seq<Json>)
    requires Chain(GraphOf(SchemasOf(document)), Roots(document), names)
    ensures IsReferenceChain(document, names, schemas)
  {
    var defined := SchemasOf(document);
    schemas := seq(|names|, i requires 0 <= i < |names| => defined[names[i]]);
    CollectRefsIsExact(Get(document, "paths"), names[0]);
    forall i | 0 < i < |names|
      ensures RefersTo(schemas[i - 1], names[i])
    {
      assert names[i] in Next(GraphOf(defined), names[i - 1]);
      CollectRefsIsExact(schemas[i - 1], names[i]);
    }
    forall i | 0 <= i < |names|
      ensures Defines(document, names[i], schemas[i])
    {
      SchemasOfDefines(document, names[i]);
    }
  }

  lemma ReferencesAreChain(document: Json, names: seq<string>, schemas: seq<Json>)
    requires IsReferenceChain(document, names, schemas)
    ensures Chain(GraphOf(SchemasOf(document)), Roots(document), names)
  {
    var graph := GraphOf(SchemasOf(document));
    forall i | 0 <= i < |names|
      ensures names[i] in graph && SchemasOf(document)[names[i]] == schemas[i]
    {
      SchemasOfDefines(document, names[i]);
    }
    CollectRefsIsExact(Get(document, "paths"), names[0]);
    forall i | 0 < i < |names|
      ensures names[i] in Next(graph, names[i - 1])
    {
      CollectRefsIsExact(schemas[i - 1], names[i]);
      assert names[i - 1] in graph;
    }
  }

  ghost predicate LeadsTo(document: Json, names: seq<string>, schemas: seq<Json>, name: string, schema: Json) {
    IsReferenceChain(document, names, schemas) && names[|names| - 1] == name && schemas[|names| - 1] == schema
  }

  lemma KeptHasChain(document: Json, name: string) returns (names: seq<string>, schemas: seq<Json>)
    requires name in Kept(document)
    ensures LeadsTo(document, names, schemas, name, Kept(document)[name])
  {
    names :| Chain(GraphOf(SchemasOf(document)), Roots(document), names) && names[|names| - 1] == name;
    schemas := ChainIsReferences(document, names);
    SchemasOfDefines(document, name);
    assert Defines(document, names[|names| - 1], schemas[|names| - 1]);
  }

  lemma ChainIsKept(document: Json, names: seq<string>, schemas: seq<Json>, name: string, schema: Json)
    requires LeadsTo(document, names, schemas, name, schema)
    ensures name in Kept(document) && Kept(document)[name] == schema
  {
    ReferencesAreChain(document, names, schemas);
    assert Defines(document, names[|names| - 1], schemas[|names| - 1]);
    SchemasOfDefines(document, name);
    assert Reaches(GraphOf(SchemasOf(document)), Roots(document), name);
  }

  /** A component schema is kept if and only if a chain of references leads from the paths to it,
      through defined schemas; and it is kept as it is. */
  lemma KeptIsReferenced(document: Json, name: string, schema: Json)
    ensures name in Kept(document) && Kept(document)[name] == schema <==>
            exists names, schemas :: LeadsTo(document, names, schemas, name, schema)
  {
    if name in Kept(document) && Kept(document)[name] == schema {
      var names, schemas := KeptHasChain(document, name);
    }
    if names, schemas :| LeadsTo(document, names, schemas, name, schema) {
      ChainIsKept(document, names, schemas, name, schema);
    }
  }

  /** Pruning changes the component schemas and nothing else: every other key of the document and of its
      components keeps its value. */
  lemma PrunedKeepsTheRest(document: Json, key: string)
    requires Prunable(document) && HasSchemaDict(document)
    ensures Pruned(document).Obj? && Get(Get(Pruned(document), "components"), "schemas") == Obj(Kept(document))
    ensures key != "components" ==>
              (key in Pruned(document).fields <==> key in document.fields)
              && Get(Pruned(document), key) == Get(document, key)
    ensures key != "schemas" ==>
              Get(Get(Pruned(document), "components"), key) == Get(Get(document, "components"), key)
  {}
}
