/** The flattened public contract of generate_agent_server_rest_api_contract_summary.py and its
    diff: two documents whose paths and referenced components agree have no diff. */
module PublicContract {
  import opened Wrappers
  import opened Json
  import opened ReferenceGraph
  import opened ContractPrune
  import OpenApiWalk
  import OpenApiReference

  /** The lines of one operation and of one component, `_operation_contract_lines` and
      `_schema_contract_lines`, as sets. */
  datatype Wording = Wording(operation: (string, string, Json) -> set<string>, component: (string, Json) -> set<string>)

  predicate IsOperation(verb: string, operation: Json) { verb in OpenApiWalk.HTTP_METHODS && operation.Obj? }

  function Fields(node: Json): map<string, Json> { if node.Obj? then node.fields else map[] }

  /** The lines of some operations of a path item. */
  function ItemLines(w: Wording, path: string, item: map<string, Json>, verbs: set<string>): set<string>
    requires verbs <= item.Keys
  {
    set verb, line | verb in verbs && IsOperation(verb, item[verb])
                     && line in w.operation(path, verb, item[verb]) :: line
  }

  /** The lines of some paths; a path item that is no dict has none. */
  function PathLines(w: Wording, paths: map<string, Json>, names: set<string>): set<string>
    requires names <= paths.Keys
  {
    set path, line | path in names && line in ItemLines(w, path, Fields(paths[path]), Fields(paths[path]).Keys) :: line
  }

  /** The lines of some components; a component that is no dict has none. */
  function ComponentLines(w: Wording, schemas: Schemas, names: set<string>): set<string>
    requires names <= schemas.Keys
  {
    set name, line | name in names && schemas[name].Obj? && line in w.component(name, schemas[name]) :: line
  }

  /** The contract of a document: what its operations and the components they reach say. */
  ghost function Contract(w: Wording, document: Json): set<string> {
    var paths, kept := Fields(Get(document, "paths")), Kept(document);
    PathLines(w, paths, paths.Keys) + ComponentLines(w, kept, kept.Keys)
  }

  // ----- the loops -----

  method FlattenItem(w: Wording, path: string, item: map<string, Json>) returns (lines: set<string>)
    ensures lines == ItemLines(w, path, item, item.Keys)
  {
    lines := {};
    var left := item.Keys;
    while left != {}
      invariant left <= item.Keys
      invariant lines == ItemLines(w, path, item, item.Keys - left)
      decreases |left|
    {
      var verb :| verb in left;
      ghost var done := item.Keys - left;
      assert item.Keys - (left - {verb}) == done + {verb};
      if IsOperation(verb, item[verb]) {
        lines := lines + w.operation(path, verb, item[verb]);
      }
      left := left - {verb};
    }
    assert item.Keys - {} == item.Keys;
  }

  method FlattenPaths(w: Wording, paths: map<string, Json>) returns (lines: set<string>)
    ensures lines == PathLines(w, paths, paths.Keys)
  {
    lines := {};
    var left := paths.Keys;
    while left != {}
      invariant left <= paths.Keys
      invariant lines == PathLines(w, paths, paths.Keys - left)
      decreases |left|
    {
      var path :| path in left;
      ghost var done := paths.Keys - left;
      assert paths.Keys - (left - {path}) == done + {path};
      PathStep(w, paths, done, path);
      if paths[path].Obj? {
        var more := FlattenItem(w, path, paths[path].fields);
        lines := lines + more;
      }
      left := left - {path};
    }
    assert paths.Keys - {} == paths.Keys;
  }

  lemma PathStep(w: Wording, paths: map<string, Json>, done: set<string>, path: string)
    requires done <= paths.Keys && path in paths
    ensures PathLines(w, paths, done + {path})
         == PathLines(w, paths, done)
            + if paths[path].Obj? then ItemLines(w, path, paths[path].fields, paths[path].fields.Keys) else {}
  {
    var item := Fields(paths[path]);
    assert !paths[path].Obj? ==> ItemLines(w, path, item, item.Keys) == {};
  }

  method FlattenComponents(w: Wording, schemas: Schemas) returns (lines: set<string>)
    ensures lines == ComponentLines(w, schemas, schemas.Keys)
  {
    lines := {};
    var left := schemas.Keys;
    while left != {}
      invariant left <= schemas.Keys
      invariant lines == ComponentLines(w, schemas, schemas.Keys - left)
      decreases |left|
    {
      var name :| name in left;
      ghost var done := schemas.Keys - left;
      assert schemas.Keys - (left - {name}) == done + {name};
      if schemas[name].Obj? {
        lines := lines + w.component(name, schemas[name]);
      }
      left := left - {name};
    }
    assert schemas.Keys - {} == schemas.Keys;
  }

  /** `_flatten_public_contract`, up to the order of the lines; None is the AttributeError of a
      document or a `components` that is no dict. */
  method FlattenPublicContract(w: Wording, document: Json) returns (lines: Option<set<string>>)
    ensures lines == if Prunable(document) then Some(Contract(w, document)) else None
  {
    var pruned := PruneUnreferencedSchemas(document);
    if pruned.None? {
      return None;
    }
    PrunedParts(document);
    var operations := FlattenPaths(w, Fields(Get(pruned.value, "paths")));
    var components := FlattenComponents(w, SchemasOf(pruned.value));
    lines := Some(operations + components);
  }

  /** The pruned document has the paths of the document and the components it keeps. */
  lemma PrunedParts(document: Json)
    requires Prunable(document)
    ensures Get(Pruned(document), "paths") == Get(document, "paths")
    ensures SchemasOf(Pruned(document)) == Kept(document)
  {
    if HasSchemaDict(document) {
      WithSchemasFields(document, Kept(document));
    }
  }

  // ----- the diff -----

  /** `generate_contract_diff`; `render` is the text of a diff, which is never empty. */
  method GenerateContractDiff(w: Wording, render: (set<string>, set<string>) -> string, previous: Json, current: Json)
    returns (diff: Option<string>)
    requires forall a, b | a != b :: render(a, b) != ""
    ensures diff.Some? <==> Prunable(previous) && Prunable(current)
    ensures diff.Some? ==> (diff.value == "" <==> Contract(w, previous) == Contract(w, current))
  {
    var before := FlattenPublicContract(w, previous);
    var after := FlattenPublicContract(w, current);
    if before.None? || after.None? {
      return None;
    }
    if before == after {
      return Some("");
    }
    diff := Some(render(before.value, after.value));
  }

  /** Documents with the same paths that agree on every component a reference leads to have the
      same contract, whatever their other components are. */
  lemma NoDiffWhenContractsAgree(w: Wording, a: Json, b: Json)
    requires Get(a, "paths") == Get(b, "paths")
    requires forall name | name in Referenced(a) :: SameEntry(SchemasOf(a), SchemasOf(b), name)
    ensures Contract(w, a) == Contract(w, b)
  {
    AgreeingKeepsSame(a, b);
  }

  /** A component no kept part refers to never shows: adding, changing or dropping it, and with it
      whatever only it refers to, leaves the contract as it is. */
  lemma UnreferencedNeverShows(w: Wording, document: Json, schemas: Schemas)
    requires document.Obj?
    requires forall name | name in Referenced(document) :: SameEntry(SchemasOf(document), schemas, name)
    ensures Contract(w, WithSchemas(document, schemas)) == Contract(w, document)
  {
    WithSchemasFields(document, schemas);
    NoDiffWhenContractsAgree(w, document, WithSchemas(document, schemas));
  }

  /** Pruning does not change the contract. */
  lemma PruningKeepsContract(w: Wording, document: Json)
    requires Prunable(document)
    ensures Contract(w, Pruned(document)) == Contract(w, document)
  {
    PruneIdempotent(document);
    PrunedParts(document);
    KeptOnce(SchemasOf(document), Roots(document));
  }

  /** A line of the contract comes from an operation or from a component that the operations
      reach, and every such line is there. */
  lemma ContractLines(w: Wording, document: Json, line: string)
    ensures line in Contract(w, document) <==>
            (exists path, verb :: OperationSays(w, Fields(Get(document, "paths")), path, verb, line))
            || exists name :: ComponentSays(w, document, name, line)
  {
    OperationLines(w, Fields(Get(document, "paths")), line);
    if line in ComponentLines(w, Kept(document), Kept(document).Keys) {
      var name :| name in Kept(document) && Kept(document)[name].Obj?
                  && line in w.component(name, Kept(document)[name]);
      assert ComponentSays(w, document, name, line);
    }
    if name :| ComponentSays(w, document, name, line) {
      assert name in Kept(document) && Kept(document)[name] == SchemasOf(document)[name];
    }
  }

  lemma OperationLines(w: Wording, paths: map<string, Json>, line: string)
    ensures line in PathLines(w, paths, paths.Keys) <==> exists path, verb :: OperationSays(w, paths, path, verb, line)
  {
    if path, verb :| OperationSays(w, paths, path, verb, line) {
      OpenApiReference.Methods(verb);
      assert line in ItemLines(w, path, Fields(paths[path]), Fields(paths[path]).Keys);
    }
    if line in PathLines(w, paths, paths.Keys) {
      var path :| path in paths && line in ItemLines(w, path, Fields(paths[path]), Fields(paths[path]).Keys);
      var item := Fields(paths[path]);
      var verb :| verb in item && IsOperation(verb, item[verb]) && line in w.operation(path, verb, item[verb]);
      OpenApiReference.Methods(verb);
      assert OperationSays(w, paths, path, verb, line);
    }
  }

  /** The operation that the paths hold for a path and a method says the line. */
  predicate OperationSays(w: Wording, paths: map<string, Json>, path: string, verb: string, line: string) {
    && path in paths && verb in Fields(paths[path])
    && OpenApiReference.IsMethod(verb) && Fields(paths[path])[verb].Obj?
    && line in w.operation(path, verb, Fields(paths[path])[verb])
  }

  /** A defined component that a chain of references leads to says the line. */
  ghost predicate ComponentSays(w: Wording, document: Json, name: string, line: string) {
    && name in SchemasOf(document) && Reaches(GraphOf(SchemasOf(document)), Roots(document), name)
    && SchemasOf(document)[name].Obj? && line in w.component(name, SchemasOf(document)[name])
  }
}
