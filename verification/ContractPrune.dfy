/** Reachability pruning of generate_agent_server_rest_api_contract_summary.py: the
    components a public contract keeps are those reachable from its paths through a
    reference graph that may be cyclic. */
module ContractPrune {
  import opened Wrappers
  import opened Json
  import opened ReferenceGraph

  const REF_PREFIX := "#/components/schemas/"

  /** `_schema_ref_name`: the pattern takes a non-empty rest without a slash. */
  function RefName(ref: string): Option<string> {
    if REF_PREFIX <= ref && |ref| > |REF_PREFIX| && '/' !in ref[|REF_PREFIX|..]
    then Some(ref[|REF_PREFIX|..]) else None
  }

  function OwnRef(node: Json): set<string> {
    if Get(node, "$ref").Str? && RefName(Get(node, "$ref").text).Some?
    then {RefName(Get(node, "$ref").text).value} else {}
  }

  /** `_collect_schema_refs`. */
  function CollectRefs(node: Json): set<string> {
    match node
    case Obj(fields) => OwnRef(node) + set key, name | key in fields && name in CollectRefs(fields[key]) :: name
    case Arr(items) => set i, name | 0 <= i < |items| && name in CollectRefs(items[i]) :: name
    case _ => {}
  }

  type Schemas = map<string, Json>

  function GraphOf(schemas: Schemas): Graph {
    map name | name in schemas :: CollectRefs(schemas[name])
  }

  type Names = set<string>

  /** `list(names)`; the order of a Python set is left open. */
  method ListOf(names: set<string>) returns (order: seq<string>)
    ensures Elements(order) == names
  {
    order := [];
    var todo := names;
    while todo != {}
      invariant todo <= names && Elements(order) == names - todo
    {
      var name :| name in todo;
      assert Elements(order + [name]) == Elements(order) + {name};
      order, todo := order + [name], todo - {name};
    }
  }

  function Elements(list: seq<string>): set<string> {
    set name | name in list
  }

  /** Closed, but for the names still pending. */
  predicate ClosedUpTo(graph: Graph, roots: set<string>, names: set<string>, pending: set<string>) {
    && (forall name | name in roots && name in graph :: name in names || name in pending)
    && (forall name, next | name in names && next in Next(graph, name) && next in graph ::
          next in names || next in pending)
  }

  /** The worklist state inside a closed set. */
  ghost predicate Exploring(graph: Graph, roots: Names, reach: Names, used: Names, pending: Names) {
    && used <= reach && pending * graph.Keys <= reach
    && ClosedUpTo(graph, roots, used, pending)
  }

  lemma Visit(graph: Graph, roots: Names, reach: Names, used: Names, rest: Names, name: string)
    requires Closed(graph, roots, reach) && name in graph
    requires Exploring(graph, roots, reach, used, rest + {name})
    ensures Exploring(graph, roots, reach, used + {name}, rest + (graph[name] - (used + {name})))
  {
    assert name in reach && graph[name] == Next(graph, name);
  }

  lemma SkipName(graph: Graph, roots: Names, reach: Names, used: Names, rest: Names, name: string)
    requires Exploring(graph, roots, reach, used, rest + {name}) && (name in used || name !in graph)
    ensures Exploring(graph, roots, reach, used, rest)
  {}

  /** The worklist, inside any closed set. It ends on cyclic graphs too: every round uses up
      a schema or a pending name. */
  method Worklist(schemas: Schemas, roots: set<string>, ghost graph: Graph, ghost reach: set<string>)
    returns (used: set<string>)
    requires graph == GraphOf(schemas) && Closed(graph, roots, reach)
    ensures used <= reach && Closed(graph, roots, used)
  {
    used := {};
    var pending := ListOf(roots);
    while pending != []
      invariant Exploring(graph, roots, reach, used, Elements(pending))
      decreases |schemas.Keys - used|, |pending|
    {
      var last := |pending| - 1;
      var name := pending[last];
      var rest := pending[..last];
      ElementsSnoc(rest, name, pending);
      if name in used || name !in schemas {
        SkipName(graph, roots, reach, used, Elements(rest), name);
        pending := rest;
        continue;
      }
      Visit(graph, roots, reach, used, Elements(rest), name);
      var more := ListOf(CollectRefs(schemas[name]) - (used + {name}));
      ElementsSum(rest, more);
      assert schemas.Keys - (used + {name}) < schemas.Keys - used;
      FewerLeft(schemas.Keys, used, name);
      used := used + {name};
      pending := rest + more;
    }
  }

  lemma FewerLeft(all: set<string>, used: set<string>, name: string)
    requires name in all && name !in used
    ensures |all - (used + {name})| < |all - used|
  {
    assert all - (used + {name}) == all - used - {name};
  }

  lemma ElementsSnoc(rest: seq<string>, name: string, list: seq<string>)
    requires list != [] && rest == list[..|list| - 1] && name == list[|list| - 1]
    ensures Elements(list) == Elements(rest) + {name}
  {
    assert list == rest + [name];
  }

  /** The schemas the pruning keeps are exactly the reachable ones. */
  method UsedSchemas(schemas: Schemas, roots: set<string>) returns (used: set<string>)
    ensures used == Reachable(GraphOf(schemas), roots)
  {
    ghost var graph := GraphOf(schemas);
    ReachableIsClosed(graph, roots);
    used := Worklist(schemas, roots, graph, Reachable(graph, roots));
    ReachableIsLeast(graph, roots, used);
  }

  lemma ElementsSum(a: seq<string>, b: seq<string>)
    ensures Elements(a + b) == Elements(a) + Elements(b)
  {}

  // ----- pruning a document -----

  function Components(document: Json): map<string, Json> {
    if Get(document, "components").Obj? then Get(document, "components").fields else map[]
  }

  /** The dict under `components.schemas`; empty when there is none. */
  function SchemasOf(document: Json): Schemas {
    if "schemas" in Components(document) && Components(document)["schemas"].Obj?
    then Components(document)["schemas"].fields else map[]
  }

  function Roots(document: Json): set<string> { CollectRefs(Get(document, "paths")) }

  function WithSchemas(document: Json, schemas: Schemas): Json
    requires document.Obj?
  {
    Obj(document.fields["components" := Obj(Components(document)["schemas" := Obj(schemas)])])
  }

  /** The documents the code accepts: a dict whose `components`, if present, is a dict. */
  predicate Prunable(document: Json) {
    document.Obj? && ("components" in document.fields ==> document.fields["components"].Obj?)
  }

  /** `schemas` is absent or a dict; otherwise the document is returned as it is. */
  predicate HasSchemaDict(document: Json) {
    "schemas" in Components(document) ==> Components(document)["schemas"].Obj?
  }

  ghost function Kept(document: Json): Schemas {
    Restrict(SchemasOf(document), Reachable(GraphOf(SchemasOf(document)), Roots(document)))
  }

  ghost function Pruned(document: Json): Json
    requires Prunable(document)
  {
    if HasSchemaDict(document) then WithSchemas(document, Kept(document)) else document
  }

  /** `_prune_unreferenced_schemas`; None is the AttributeError of a non-dict. */
  method PruneUnreferencedSchemas(document: Json) returns (r: Option<Json>)
    ensures r == if Prunable(document) then Some(Pruned(document)) else None
  {
    if !Prunable(document) {
      return None;
    }
    if !HasSchemaDict(document) {
      return Some(document);
    }
    var schemas := SchemasOf(document);
    var used := UsedSchemas(schemas, Roots(document));
    r := Some(WithSchemas(document, Restrict(schemas, used)));
  }

  lemma WithSchemasFields(document: Json, schemas: Schemas)
    requires document.Obj?
    ensures var changed := WithSchemas(document, schemas);
            && Prunable(changed) && HasSchemaDict(changed) && SchemasOf(changed) == schemas
            && Get(changed, "paths") == Get(document, "paths") && WithSchemas(changed, schemas) == changed
  {
    var changed := WithSchemas(document, schemas);
    assert "paths"[0] != "components"[0];
    assert Components(changed) == Components(document)["schemas" := Obj(schemas)];
    assert Components(changed)["schemas" := Obj(schemas)] == Components(changed);
    assert changed.fields["components" := changed.fields["components"]] == changed.fields;
  }

  lemma KeptOnce(schemas: Schemas, roots: set<string>)
    ensures var kept := Restrict(schemas, Reachable(GraphOf(schemas), roots));
            Restrict(kept, Reachable(GraphOf(kept), roots)) == kept
  {
    var graph := GraphOf(schemas);
    var kept := Restrict(schemas, Reachable(graph, roots));
    assert GraphOf(kept) == Restrict(graph, Reachable(graph, roots));
    ReachableInRestriction(graph, roots);
  }

  /** Pruning twice is pruning once, and pruning leaves `paths` alone. */
  lemma PruneIdempotent(document: Json)
    requires Prunable(document)
    ensures Prunable(Pruned(document)) && Pruned(Pruned(document)) == Pruned(document)
    ensures Get(Pruned(document), "paths") == Get(document, "paths")
  {
    if HasSchemaDict(document) {
      WithSchemasFields(document, Kept(document));
      KeptOnce(SchemasOf(document), Roots(document));
    }
  }

  /** Every name that a kept part of the contract refers to, defined or not. */
  ghost function Referenced(document: Json): set<string> {
    Mentioned(GraphOf(SchemasOf(document)), Roots(document))
  }

  /** No reference is broken: what a kept part refers to resolves after pruning exactly
      when it resolved before, and to the same schema. */
  lemma ReferencesStillResolve(document: Json, name: string)
    requires name in Referenced(document)
    ensures SameEntry(Kept(document), SchemasOf(document), name)
  {
    ReachableIsClosed(GraphOf(SchemasOf(document)), Roots(document));
  }

  lemma SameKeptAgrees(a: Json, b: Json, name: string)
    requires Roots(a) == Roots(b) && Kept(a) == Kept(b) && name in Referenced(a)
    ensures SameEntry(SchemasOf(a), SchemasOf(b), name)
  {
    ReferencesStillResolve(a, name);
    if name !in Roots(a) {
      var g, h := GraphOf(SchemasOf(a)), GraphOf(SchemasOf(b));
      var from :| from in Reachable(g, Roots(a)) && name in Next(g, from);
      assert from in Kept(a) && from in Kept(b);
      assert SchemasOf(a)[from] == Kept(a)[from] == Kept(b)[from] == SchemasOf(b)[from];
      assert name in Next(h, from);
    }
    assert name in Referenced(b);
    ReferencesStillResolve(b, name);
  }

  lemma AgreeingKeepsSame(a: Json, b: Json)
    requires Roots(a) == Roots(b)
    requires forall name | name in Referenced(a) :: SameEntry(SchemasOf(a), SchemasOf(b), name)
    ensures Kept(a) == Kept(b)
  {
    var g, h := GraphOf(SchemasOf(a)), GraphOf(SchemasOf(b));
    forall name | name in Mentioned(g, Roots(a))
      ensures SameEntry(g, h, name)
    {
      assert SameEntry(SchemasOf(a), SchemasOf(b), name);
    }
    SameEntriesReach(g, h, Roots(a));
    ReachableIsMentioned(g, Roots(a));
    forall name | name in Reachable(g, Roots(a))
      ensures SameEntry(SchemasOf(a), SchemasOf(b), name)
    {
      assert name in Referenced(a);
    }
  }

  /** Two documents with the same roots keep the same components exactly when they agree on
      every name the first one's contract refers to. */
  lemma SameContract(a: Json, b: Json)
    requires Roots(a) == Roots(b)
    ensures Kept(a) == Kept(b) <==>
            forall name | name in Referenced(a) :: SameEntry(SchemasOf(a), SchemasOf(b), name)
  {
    if Kept(a) == Kept(b) {
      forall name | name in Referenced(a)
        ensures SameEntry(SchemasOf(a), SchemasOf(b), name)
      {
        SameKeptAgrees(a, b, name);
      }
    } else if forall name | name in Referenced(a) :: SameEntry(SchemasOf(a), SchemasOf(b), name) {
      AgreeingKeepsSame(a, b);
    }
  }
}
