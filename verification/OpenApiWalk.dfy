/** What the weak-schema walk of check_agent_server_openapi_quality.py finds, as set
    functions over token lists, and the proof that it finds exactly the weak positions:
    sound through the JSON Pointer resolver, and complete for every location reachable
    from a component, a request body or a 2xx response. */
module OpenApiWalk {
  import opened Wrappers
  import opened Text
  import opened Json
  import opened JsonPointer

  /** A weak position: where it is, and why it is weak. */
  datatype Spot = Spot(tokens: seq<string>, kind: string)

  const EMPTY_OBJECT := "empty-object-schema"
  const OPEN_PROPERTIES := "unrestricted-additional-properties"
  const MISSING_REQUEST := "missing-request-schema"
  const MISSING_RESPONSE := "missing-success-response-schema"

  const HTTP_METHODS: set<string> := {"get", "put", "post", "delete", "patch", "options", "head", "trace"}
  const LIST_KEYWORDS: seq<string> := ["oneOf", "anyOf", "allOf", "prefixItems"]
  const NESTED_KEYWORDS: seq<string> := ["items", "additionalProperties", "contains", "not", "if", "then", "else"]

  /** The list stored under a keyword; empty when the value is no list. */
  function Variants(schema: Json, keyword: string): (vs: seq<Json>)
    ensures forall v | v in vs :: v < schema
  {
    if schema.Obj? && keyword in schema.fields && schema.fields[keyword].Arr?
    then schema.fields[keyword].items else []
  }

  /** The members of the object stored under a key; empty when it is no object. */
  function Members(schema: Json, key: string): (ms: map<string, Json>)
    ensures forall name | name in ms :: ms[name] < schema
  {
    if schema.Obj? && key in schema.fields && schema.fields[key].Obj?
    then schema.fields[key].fields else map[]
  }

  predicate HasOpenProperties(schema: Json) {
    Get(schema, "additionalProperties") == Bool(true)
  }

  /** `_walk_schema`: the weak positions at and below one schema position. */
  function Walk(schema: Json, at: seq<string>): set<Spot>
    decreases schema, 3
  {
    if !schema.Obj? then {}
    else if schema.fields == map[] then {Spot(at, EMPTY_OBJECT)}
    else
      (if HasOpenProperties(schema) then {Spot(at + ["additionalProperties"], OPEN_PROPERTIES)} else {})
      + ListSpots(schema, at, |LIST_KEYWORDS|)
      + NestedSpots(schema, at, |NESTED_KEYWORDS|)
      + PropertySpots(schema, at, Members(schema, "properties").Keys)
  }

  /** What the first `n` list-valued keywords contribute. */
  function ListSpots(schema: Json, at: seq<string>, n: nat): set<Spot>
    requires n <= |LIST_KEYWORDS|
    decreases schema, 2
  {
    set k, s | 0 <= k < n && s in VariantSpots(schema, at, LIST_KEYWORDS[k], |Variants(schema, LIST_KEYWORDS[k])|) :: s
  }

  function VariantSpots(schema: Json, at: seq<string>, kw: string, n: nat): set<Spot>
    requires n <= |Variants(schema, kw)|
    decreases schema, 1
  {
    set i, s | 0 <= i < n && s in Walk(Variants(schema, kw)[i], at + [kw, Decimal(i)]) :: s
  }

  predicate HasNested(schema: Json, kw: string) {
    schema.Obj? && kw in schema.fields && schema.fields[kw].Obj?
  }

  /** What the first `n` schema-valued keywords contribute. */
  function NestedSpots(schema: Json, at: seq<string>, n: nat): set<Spot>
    requires n <= |NESTED_KEYWORDS|
    decreases schema, 2
  {
    set k, s | 0 <= k < n && HasNested(schema, NESTED_KEYWORDS[k])
               && s in Walk(schema.fields[NESTED_KEYWORDS[k]], at + [NESTED_KEYWORDS[k]]) :: s
  }

  function PropertySpots(schema: Json, at: seq<string>, names: set<string>): set<Spot>
    requires names <= Members(schema, "properties").Keys
    decreases schema, 2
  {
    set name, s | name in names && s in Walk(Members(schema, "properties")[name], at + ["properties", name]) :: s
  }

  // ----- the reference: navigation by schema keywords -----

  datatype Step = Variant(keyword: string, index: nat) | Nested(keyword: string) | Property(name: string)

  function StepTokens(step: Step): seq<string> {
    match step
    case Variant(keyword, index) => [keyword, Decimal(index)]
    case Nested(keyword) => [keyword]
    case Property(name) => ["properties", name]
  }

  function PathTokens(steps: seq<Step>): seq<string> {
    if steps == [] then [] else StepTokens(steps[0]) + PathTokens(steps[1..])
  }

  function Follow(schema: Json, step: Step): (child: Option<Json>)
    ensures child.Some? ==> child.value < schema
  {
    match step
    case Variant(keyword, index) =>
      if keyword in LIST_KEYWORDS && index < |Variants(schema, keyword)|
      then Some(Variants(schema, keyword)[index]) else None
    case Nested(keyword) =>
      if keyword in NESTED_KEYWORDS && HasNested(schema, keyword)
      then Some(schema.fields[keyword]) else None
    case Property(name) =>
      if name in Members(schema, "properties") then Some(Members(schema, "properties")[name]) else None
  }

  function FollowAll(schema: Json, steps: seq<Step>): Option<Json>
    decreases |steps|
  {
    if steps == [] then Some(schema)
    else
      var child := Follow(schema, steps[0]);
      if child.None? then None else FollowAll(child.value, steps[1..])
  }

  /** The node itself is weak: it is `{}`, or it says `additionalProperties: true`. */
  predicate WeakNode(node: Json, at: seq<string>, s: Spot) {
    (node == Obj(map[]) && s == Spot(at, EMPTY_OBJECT)) ||
    (HasOpenProperties(node) && s == Spot(at + ["additionalProperties"], OPEN_PROPERTIES))
  }

  predicate WeakBelow(schema: Json, at: seq<string>, steps: seq<Step>, s: Spot) {
    var node := FollowAll(schema, steps);
    node.Some? && WeakNode(node.value, at + PathTokens(steps), s)
  }

  predicate ChildHas(schema: Json, at: seq<string>, step: Step, s: Spot) {
    var child := Follow(schema, step);
    child.Some? && s in Walk(child.value, at + StepTokens(step))
  }

  /** One level of the walk: a finding is the node's own or comes from one of its children. */
  lemma WalkUnfold(schema: Json, at: seq<string>, s: Spot) returns (step: Step)
    requires s in Walk(schema, at) && !WeakNode(schema, at, s)
    ensures ChildHas(schema, at, step, s)
  {
    if s in ListSpots(schema, at, |LIST_KEYWORDS|) {
      var k :| 0 <= k < |LIST_KEYWORDS|
               && s in VariantSpots(schema, at, LIST_KEYWORDS[k], |Variants(schema, LIST_KEYWORDS[k])|);
      var kw := LIST_KEYWORDS[k];
      var i :| 0 <= i < |Variants(schema, kw)| && s in Walk(Variants(schema, kw)[i], at + [kw, Decimal(i)]);
      step := Variant(kw, i);
    } else if s in NestedSpots(schema, at, |NESTED_KEYWORDS|) {
      var k :| 0 <= k < |NESTED_KEYWORDS| && HasNested(schema, NESTED_KEYWORDS[k])
               && s in Walk(schema.fields[NESTED_KEYWORDS[k]], at + [NESTED_KEYWORDS[k]]);
      step := Nested(NESTED_KEYWORDS[k]);
    } else {
      var name :| name in Members(schema, "properties")
                  && s in Walk(Members(schema, "properties")[name], at + ["properties", name]);
      step := Property(name);
    }
  }

  lemma WalkFold(schema: Json, at: seq<string>, step: Step, s: Spot)
    requires ChildHas(schema, at, step, s)
    ensures s in Walk(schema, at)
  {
    match step
    case Variant(kw, i) =>
      var k :| 0 <= k < |LIST_KEYWORDS| && LIST_KEYWORDS[k] == kw;
      assert s in VariantSpots(schema, at, LIST_KEYWORDS[k], |Variants(schema, LIST_KEYWORDS[k])|);
      assert s in ListSpots(schema, at, |LIST_KEYWORDS|);
      assert schema.fields != map[];
    case Nested(kw) =>
      var k :| 0 <= k < |NESTED_KEYWORDS| && NESTED_KEYWORDS[k] == kw;
      assert s in NestedSpots(schema, at, |NESTED_KEYWORDS|);
      assert schema.fields != map[];
    case Property(name) =>
      assert s in PropertySpots(schema, at, Members(schema, "properties").Keys);
      assert schema.fields != map[];
  }

  lemma WeakBelowParent(schema: Json, at: seq<string>, step: Step, rest: seq<Step>, s: Spot)
    requires Follow(schema, step).Some?
    requires WeakBelow(Follow(schema, step).value, at + StepTokens(step), rest, s)
    ensures WeakBelow(schema, at, [step] + rest, s)
  {
    var steps := [step] + rest;
    assert steps[1..] == rest;
    assert at + PathTokens(steps) == at + StepTokens(step) + PathTokens(rest);
  }

  lemma {:induction false} WalkSound(schema: Json, at: seq<string>, s: Spot) returns (steps: seq<Step>)
    requires s in Walk(schema, at)
    ensures WeakBelow(schema, at, steps, s)
    decreases schema
  {
    if WeakNode(schema, at, s) {
      steps := [];
      assert at + [] == at;
    } else {
      var step := WalkUnfold(schema, at, s);
      var rest := WalkSound(Follow(schema, step).value, at + StepTokens(step), s);
      WeakBelowParent(schema, at, step, rest, s);
      steps := [step] + rest;
    }
  }

  lemma {:induction false} WalkComplete(schema: Json, at: seq<string>, steps: seq<Step>, s: Spot)
    requires WeakBelow(schema, at, steps, s)
    ensures s in Walk(schema, at)
    decreases |steps|
  {
    if steps == [] {
      assert at + [] == at;
    } else {
      assert at + PathTokens(steps) == at + StepTokens(steps[0]) + PathTokens(steps[1..]);
      WalkComplete(Follow(schema, steps[0]).value, at + StepTokens(steps[0]), steps[1..], s);
      WalkFold(schema, at, steps[0], s);
    }
  }

  /** The recursive walk reports exactly the weak positions that keyword navigation reaches. */
  lemma WalkIsExact(schema: Json, at: seq<string>, s: Spot)
    ensures s in Walk(schema, at) <==> exists steps :: WeakBelow(schema, at, steps, s)
  {
    if s in Walk(schema, at) {
      var steps := WalkSound(schema, at, s);
    }
    forall steps | WeakBelow(schema, at, steps, s)
      ensures s in Walk(schema, at)
    {
      WalkComplete(schema, at, steps, s);
    }
  }

  // ----- navigation agrees with JSON Pointer evaluation -----

  lemma AtMember(node: Json, key: string)
    requires node.Obj? && key in node.fields
    ensures At(node, [key]) == Some(node.fields[key])
  {
    assert [key][1..] == [];
  }

  lemma AtMembers(node: Json, key: string, name: string)
    requires name in Members(node, key)
    ensures At(node, [key, name]) == Some(Members(node, key)[name])
  {
    AtMember(node, key);
    AtMember(node.fields[key], name);
    AtConcat(node, [key], [name]);
  }

  lemma StepLocates(schema: Json, step: Step)
    requires Follow(schema, step).Some?
    ensures At(schema, StepTokens(step)) == Some(Follow(schema, step).value)
  {
    match step
    case Variant(keyword, index) =>
      ParseDecimal(index);
      AtMember(schema, keyword);
      assert [Decimal(index)][1..] == [];
      AtConcat(schema, [keyword], [Decimal(index)]);
    case Nested(keyword) => AtMember(schema, keyword);
    case Property(name) => AtMembers(schema, "properties", name);
  }

  lemma {:induction false} PathLocates(schema: Json, steps: seq<Step>)
    requires FollowAll(schema, steps).Some?
    ensures At(schema, PathTokens(steps)) == FollowAll(schema, steps)
    decreases |steps|
  {
    if steps != [] {
      StepLocates(schema, steps[0]);
      PathLocates(Follow(schema, steps[0]).value, steps[1..]);
      AtConcat(schema, StepTokens(steps[0]), PathTokens(steps[1..]));
    }
  }

  /** Where a weak position's record points, evaluation lands on exactly `{}` or `true`. */
  lemma WeakBelowLocates(document: Json, schema: Json, at: seq<string>, steps: seq<Step>, s: Spot)
    requires At(document, at) == Some(schema) && WeakBelow(schema, at, steps, s)
    ensures s.kind == EMPTY_OBJECT ==> At(document, s.tokens) == Some(Obj(map[]))
    ensures s.kind == OPEN_PROPERTIES ==> At(document, s.tokens) == Some(Bool(true))
  {
    PathLocates(schema, steps);
    var path := PathTokens(steps);
    var node := FollowAll(schema, steps).value;
    AtConcat(document, at, path);
    if HasOpenProperties(node) {
      AtMember(node, "additionalProperties");
      AtConcat(document, at + path, ["additionalProperties"]);
    }
    assert EMPTY_OBJECT != OPEN_PROPERTIES by {
      assert |EMPTY_OBJECT| != |OPEN_PROPERTIES|;
    }
  }
}
