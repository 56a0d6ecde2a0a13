/** The mutating walk and the allowlist ratchet of check_agent_server_openapi_quality.py.
    The walker appends text to pointers and adds to one shared set; its methods are proved
    to collect exactly the rendered positions of OpenApiDocument. */
module OpenApiQuality {
  import opened Wrappers
  import opened Text
  import opened Json
  import opened JsonPointer
  import opened OpenApiWalk
  import opened OpenApiDocument

  datatype WeakLocation = WeakLocation(pointer: string, kind: string)

  function Record(s: Spot): WeakLocation {
    WeakLocation(Render(s.tokens), s.kind)
  }

  /** The reported form of a set of weak positions. */
  function Records(spots: set<Spot>): set<WeakLocation> {
    set s | s in spots :: Record(s)
  }

  /** Reporting loses nothing: two positions never share a record. */
  lemma RecordInjective(a: Spot, b: Spot)
    requires Record(a) == Record(b)
    ensures a == b
  {
    RenderInjective(a.tokens, b.tokens);
  }

  lemma RenderOne(token: string)
    ensures Render([token]) == "/" + EscapeToken(token)
  {
    assert EscapeAll([token]) == [EscapeToken(token)];
    assert Joined([EscapeToken(token)]) == "/" + EscapeToken(token) + Joined([EscapeToken(token)][1..]);
  }

  /** Appending a slash and an escaped token to a pointer. */
  lemma RenderSnoc(at: seq<string>, token: string)
    ensures Render(at + [token]) == Render(at) + "/" + EscapeToken(token)
  {
    RenderConcat(at, [token]);
    RenderOne(token);
  }

  lemma RenderPlain(at: seq<string>, token: string)
    requires '~' !in token && '/' !in token
    ensures Render(at + [token]) == Render(at) + "/" + token
  {
    RenderSnoc(at, token);
    EscapePlain(token);
  }

  lemma RenderVariant(at: seq<string>, keyword: string, index: nat)
    requires '~' !in keyword && '/' !in keyword
    ensures Render(at + [keyword, Decimal(index)]) == Render(at) + "/" + keyword + "/" + Decimal(index)
  {
    RenderPlain(at, keyword);
    RenderPlain(at + [keyword], Decimal(index));
    assert at + [keyword] + [Decimal(index)] == at + [keyword, Decimal(index)];
  }

  lemma RenderMember(at: seq<string>, keyword: string, name: string)
    requires '~' !in keyword && '/' !in keyword
    ensures Render(at + [keyword, name]) == Render(at) + "/" + keyword + "/" + EscapeToken(name)
  {
    RenderPlain(at, keyword);
    RenderSnoc(at + [keyword], name);
    assert at + [keyword] + [name] == at + [keyword, name];
  }

  lemma KeywordsArePlain(keyword: string)
    requires keyword in LIST_KEYWORDS || keyword in NESTED_KEYWORDS
    ensures '~' !in keyword && '/' !in keyword
  {}

  lemma VariantStep(base: set<Spot>, schema: Json, at: seq<string>, kw: string, i: nat)
    requires i < |Variants(schema, kw)|
    ensures base + VariantSpots(schema, at, kw, i) + Walk(Variants(schema, kw)[i], at + [kw, Decimal(i)])
         == base + VariantSpots(schema, at, kw, i + 1)
  {
    assert VariantSpots(schema, at, kw, i + 1)
        == VariantSpots(schema, at, kw, i) + Walk(Variants(schema, kw)[i], at + [kw, Decimal(i)]);
  }

  lemma ListStep(base: set<Spot>, schema: Json, at: seq<string>, k: nat)
    requires k < |LIST_KEYWORDS|
    ensures base + ListSpots(schema, at, k)
            + VariantSpots(schema, at, LIST_KEYWORDS[k], |Variants(schema, LIST_KEYWORDS[k])|)
         == base + ListSpots(schema, at, k + 1)
  {
    assert ListSpots(schema, at, k + 1) == ListSpots(schema, at, k)
        + VariantSpots(schema, at, LIST_KEYWORDS[k], |Variants(schema, LIST_KEYWORDS[k])|);
  }

  ghost function NestedAt(schema: Json, at: seq<string>, kw: string): set<Spot> {
    if HasNested(schema, kw) then Walk(schema.fields[kw], at + [kw]) else {}
  }

  lemma NestedStep(base: set<Spot>, schema: Json, at: seq<string>, k: nat)
    requires k < |NESTED_KEYWORDS|
    ensures base + NestedSpots(schema, at, k + 1)
         == base + NestedSpots(schema, at, k) + NestedAt(schema, at, NESTED_KEYWORDS[k])
  {
    assert NestedSpots(schema, at, k + 1) == NestedSpots(schema, at, k) + NestedAt(schema, at, NESTED_KEYWORDS[k]);
  }

  lemma PropertyStep(base: set<Spot>, schema: Json, at: seq<string>, names: set<string>, name: string)
    requires names <= Members(schema, "properties").Keys && name in Members(schema, "properties")
    ensures base + PropertySpots(schema, at, names)
            + Walk(Members(schema, "properties")[name], at + ["properties", name])
         == base + PropertySpots(schema, at, names + {name})
  {
    assert PropertySpots(schema, at, names + {name}) == PropertySpots(schema, at, names)
        + Walk(Members(schema, "properties")[name], at + ["properties", name]);
  }

  lemma NothingYet(base: set<Spot>, schema: Json, at: seq<string>, kw: string)
    ensures base + ListSpots(schema, at, 0) == base + NestedSpots(schema, at, 0) == base
    ensures base + VariantSpots(schema, at, kw, 0) == base + PropertySpots(schema, at, {}) == base
  {}

  lemma WalkParts(base: set<Spot>, schema: Json, at: seq<string>)
    requires schema.Obj? && schema.fields != map[]
    ensures (if HasOpenProperties(schema) then base + {Spot(at + ["additionalProperties"], OPEN_PROPERTIES)} else base)
            + ListSpots(schema, at, |LIST_KEYWORDS|)
            + NestedSpots(schema, at, |NESTED_KEYWORDS|)
            + PropertySpots(schema, at, Members(schema, "properties").Keys)
         == base + Walk(schema, at)
  {}

  class Walker {
    var findings: set<WeakLocation>
    ghost var spots: set<Spot>

    /** The findings are the records of the positions visited so far. */
    ghost predicate Valid()
      reads this
    {
      findings == Records(spots)
    }

    constructor ()
      ensures Valid() && spots == {}
    {
      findings, spots := {}, {};
    }

    method Add(pointer: string, kind: string, ghost at: seq<string>)
      requires Valid() && pointer == Render(at)
      modifies this
      ensures Valid() && spots == old(spots) + {Spot(at, kind)}
    {
      findings := findings + {WeakLocation(pointer, kind)};
      spots := spots + {Spot(at, kind)};
    }

    method AddOpenProperties(pointer: string, ghost at: seq<string>)
      requires Valid() && pointer == Render(at)
      modifies this
      ensures Valid() && spots == old(spots) + {Spot(at + ["additionalProperties"], OPEN_PROPERTIES)}
    {
      RenderPlain(at, "additionalProperties");
      Add(pointer + "/" + "additionalProperties", OPEN_PROPERTIES, at + ["additionalProperties"]);
    }

    /** `_walk_schema`. */
    method WalkSchema(schema: Json, pointer: string, ghost at: seq<string>)
      requires Valid() && pointer == Render(at)
      modifies this
      ensures Valid() && spots == old(spots) + Walk(schema, at)
      decreases schema, 2
    {
      if !schema.Obj? {
        return;
      }
      if schema.fields == map[] {
        Add(pointer, EMPTY_OBJECT, at);
        return;
      }
      WalkParts(spots, schema, at);
      if HasOpenProperties(schema) {
        AddOpenProperties(pointer, at);
      }
      WalkLists(schema, pointer, at);
      WalkNested(schema, pointer, at);
      WalkProperties(schema, pointer, at);
    }

    method WalkLists(schema: Json, pointer: string, ghost at: seq<string>)
      requires Valid() && pointer == Render(at)
      modifies this
      ensures Valid() && spots == old(spots) + ListSpots(schema, at, |LIST_KEYWORDS|)
      decreases schema, 1
    {
      NothingYet(spots, schema, at, "");
      for k := 0 to |LIST_KEYWORDS|
        invariant Valid() && spots == old(spots) + ListSpots(schema, at, k)
      {
        WalkVariants(schema, pointer, LIST_KEYWORDS[k], at);
        ListStep(old(spots), schema, at, k);
      }
    }

    method WalkVariants(schema: Json, pointer: string, kw: string, ghost at: seq<string>)
      requires Valid() && pointer == Render(at) && kw in LIST_KEYWORDS
      modifies this
      ensures Valid() && spots == old(spots) + VariantSpots(schema, at, kw, |Variants(schema, kw)|)
      decreases schema, 0
    {
      var variants := Variants(schema, kw);
      NothingYet(spots, schema, at, kw);
      for i := 0 to |variants|
        invariant Valid() && spots == old(spots) + VariantSpots(schema, at, kw, i)
      {
        KeywordsArePlain(kw);
        RenderVariant(at, kw, i);
        WalkSchema(variants[i], pointer + "/" + kw + "/" + Decimal(i), at + [kw, Decimal(i)]);
        VariantStep(old(spots), schema, at, kw, i);
      }
    }

    method WalkNested(schema: Json, pointer: string, ghost at: seq<string>)
      requires Valid() && pointer == Render(at)
      modifies this
      ensures Valid() && spots == old(spots) + NestedSpots(schema, at, |NESTED_KEYWORDS|)
      decreases schema, 1
    {
      NothingYet(spots, schema, at, "");
      for k := 0 to |NESTED_KEYWORDS|
        invariant Valid() && spots == old(spots) + NestedSpots(schema, at, k)
      {
        var kw := NESTED_KEYWORDS[k];
        if HasNested(schema, kw) {
          KeywordsArePlain(kw);
          RenderPlain(at, kw);
          WalkSchema(schema.fields[kw], pointer + "/" + kw, at + [kw]);
        }
        NestedStep(old(spots), schema, at, k);
      }
    }

    method WalkProperties(schema: Json, pointer: string, ghost at: seq<string>)
      requires Valid() && pointer == Render(at)
      modifies this
      ensures Valid() && spots == old(spots) + PropertySpots(schema, at, Members(schema, "properties").Keys)
      decreases schema, 1
    {
      var members := Members(schema, "properties");
      var todo := members.Keys;
      ghost var done: set<string> := {};
      NothingYet(spots, schema, at, "");
      while todo != {}
        invariant todo + done == members.Keys
        invariant Valid() && spots == old(spots) + PropertySpots(schema, at, done)
      {
        var name :| name in todo;
        RenderMember(at, "properties", name);
        WalkSchema(members[name], pointer + "/" + "properties" + "/" + EscapeToken(name), at + ["properties", name]);
        PropertyStep(old(spots), schema, at, done, name);
        todo, done := todo - {name}, done + {name};
      }
      assert done == members.Keys;
    }

    method WalkMedia(media: Json, pointer: string, missing: string, ghost at: seq<string>)
      requires Valid() && pointer == Render(at)
      modifies this
      ensures Valid() && spots == old(spots) + MediaSpots(media, at, missing)
    {
      var schema := Get(media, "schema");
      if schema == Null {
        Add(pointer, missing, at);
      } else {
        WalkSchema(schema, pointer, at);
      }
    }

    /** The content loop, the same for request and response bodies. */
    method WalkBody(body: Json, pointer: string, missing: string, ghost at: seq<string>)
      requires Valid() && pointer == Render(at)
      modifies this
      ensures Valid() && spots == old(spots) + BodySpots(body, at, missing)
    {
      var content := Members(body, "content");
      var todo := content.Keys;
      ghost var done: set<string> := {};
      assert ContentSpots(body, at, missing, done) == {};
      while todo != {}
        invariant todo + done == content.Keys
        invariant Valid() && spots == old(spots) + ContentSpots(body, at, missing, done)
      {
        var media :| media in todo;
        RenderContent(at, "content", media, "schema");
        WalkMedia(content[media], pointer + "/" + "content" + "/" + EscapeToken(media) + "/" + "schema", missing,
                  at + ["content", media, "schema"]);
        ContentStep(old(spots), body, at, missing, done, media);
        todo, done := todo - {media}, done + {media};
      }
      assert done == content.Keys;
    }

    method WalkResponses(operation: Json, pointer: string, ghost at: seq<string>)
      requires Valid() && pointer == Render(at)
      modifies this
      ensures Valid() && spots == old(spots) + ResponseSpots(operation, at, Members(operation, "responses").Keys)
    {
      var responses := Members(operation, "responses");
      var todo := responses.Keys;
      ghost var done: set<string> := {};
      assert ResponseSpots(operation, at, done) == {};
      while todo != {}
        invariant todo + done == responses.Keys
        invariant Valid() && spots == old(spots) + ResponseSpots(operation, at, done)
      {
        var status :| status in todo;
        if IsSuccess(status) {
          RenderMember(at, "responses", status);
          WalkBody(responses[status], pointer + "/" + "responses" + "/" + EscapeToken(status), MISSING_RESPONSE,
                   at + ["responses", status]);
        }
        ResponseStep(old(spots), operation, at, done, status);
        todo, done := todo - {status}, done + {status};
      }
      assert done == responses.Keys;
    }

    method WalkRequest(body: Json, pointer: string, ghost at: seq<string>)
      requires Valid() && pointer == Render(at)
      modifies this
      ensures Valid() && spots == old(spots) + BodySpots(body, at + ["requestBody"], MISSING_REQUEST)
    {
      RenderPlain(at, "requestBody");
      WalkBody(body, pointer + "/" + "requestBody", MISSING_REQUEST, at + ["requestBody"]);
    }

    method WalkOperation(operation: Json, pointer: string, ghost at: seq<string>)
      requires Valid() && pointer == Render(at)
      modifies this
      ensures Valid() && spots == old(spots) + OperationSpots(operation, at)
    {
      OperationParts(spots, operation, at);
      WalkRequest(Get(operation, "requestBody"), pointer, at);
      WalkResponses(operation, pointer, at);
    }

    method WalkPathItem(item: Json, pointer: string, ghost at: seq<string>)
      requires Valid() && pointer == Render(at) && item.Obj?
      modifies this
      ensures Valid() && spots == old(spots) + PathItemSpots(item, at, item.fields.Keys)
    {
      var todo := item.fields.Keys;
      ghost var done: set<string> := {};
      assert PathItemSpots(item, at, done) == {};
      while todo != {}
        invariant todo + done == item.fields.Keys
        invariant Valid() && spots == old(spots) + PathItemSpots(item, at, done)
      {
        var verb :| verb in todo;
        var operation := item.fields[verb];
        if verb in HTTP_METHODS && operation.Obj? {
          VerbsArePlain(verb);
          RenderPlain(at, verb);
          WalkOperation(operation, pointer + "/" + verb, at + [verb]);
        }
        PathItemStep(old(spots), item, at, done, verb);
        todo, done := todo - {verb}, done + {verb};
      }
      assert done == item.fields.Keys;
    }

    /** `_walk_operation_schemas`. */
    method WalkOperations(document: Json)
      requires Valid()
      modifies this
      ensures Valid() && spots == old(spots) + PathsSpots(document, Members(document, "paths").Keys)
    {
      var paths := Members(document, "paths");
      var todo := paths.Keys;
      ghost var done: set<string> := {};
      assert PathsSpots(document, done) == {};
      while todo != {}
        invariant todo + done == paths.Keys
        invariant Valid() && spots == old(spots) + PathsSpots(document, done)
      {
        var path :| path in todo;
        if paths[path].Obj? {
          RenderTop("paths", path);
          WalkPathItem(paths[path], "/" + "paths" + "/" + EscapeToken(path), ["paths", path]);
        }
        PathsStep(old(spots), document, done, path);
        todo, done := todo - {path}, done + {path};
      }
      assert done == paths.Keys;
    }

    method WalkComponent(schema: Json, name: string)
      requires Valid()
      modifies this
      ensures Valid() && spots == old(spots) + Walk(schema, ["components", "schemas", name])
    {
      RenderTop3("components", "schemas", name);
      WalkSchema(schema, "/" + "components" + "/" + "schemas" + "/" + EscapeToken(name),
                 ["components", "schemas", name]);
    }

    method WalkComponents(components: Json)
      requires Valid()
      modifies this
      ensures Valid() && spots == old(spots) + ComponentSpots(components, Members(components, "schemas").Keys)
    {
      var schemas := Members(components, "schemas");
      var todo := schemas.Keys;
      ghost var done: set<string> := {};
      assert ComponentSpots(components, done) == {};
      while todo != {}
        invariant todo + done == schemas.Keys
        invariant Valid() && spots == old(spots) + ComponentSpots(components, done)
      {
        var name :| name in todo;
        WalkComponent(schemas[name], name);
        ComponentStep(old(spots), components, done, name);
        todo, done := todo - {name}, done + {name};
      }
      assert done == schemas.Keys;
    }
  }

  lemma RenderTop(keyword: string, name: string)
    requires '~' !in keyword && '/' !in keyword
    ensures Render([keyword, name]) == "/" + keyword + "/" + EscapeToken(name)
  {
    RenderMember([], keyword, name);
    assert [] + [keyword, name] == [keyword, name];
    assert Render([]) + "/" == "/";
  }

  lemma RenderTop3(first: string, second: string, name: string)
    requires '~' !in first && '/' !in first && '~' !in second && '/' !in second
    ensures Render([first, second, name]) == "/" + first + "/" + second + "/" + EscapeToken(name)
  {
    RenderPlain([], first);
    RenderMember([first], second, name);
    assert [] + [first] == [first];
    assert [first] + [second, name] == [first, second, name];
    assert Render([]) + "/" == "/";
  }

  lemma RenderContent(at: seq<string>, first: string, media: string, last: string)
    requires '~' !in first && '/' !in first && '~' !in last && '/' !in last
    ensures Render(at + [first, media, last]) == Render(at) + "/" + first + "/" + EscapeToken(media) + "/" + last
  {
    RenderMember(at, first, media);
    RenderPlain(at + [first, media], last);
    assert at + [first, media] + [last] == at + [first, media, last];
  }

  lemma VerbsArePlain(verb: string)
    requires verb in HTTP_METHODS
    ensures '~' !in verb && '/' !in verb
  {}

  lemma ContentStep(base: set<Spot>, body: Json, at: seq<string>, missing: string, names: set<string>, media: string)
    requires names <= Members(body, "content").Keys && media in Members(body, "content")
    ensures base + ContentSpots(body, at, missing, names)
            + MediaSpots(Members(body, "content")[media], at + ["content", media, "schema"], missing)
         == base + ContentSpots(body, at, missing, names + {media})
  {
    assert ContentSpots(body, at, missing, names + {media}) == ContentSpots(body, at, missing, names)
        + MediaSpots(Members(body, "content")[media], at + ["content", media, "schema"], missing);
  }

  lemma ResponseStep(base: set<Spot>, operation: Json, at: seq<string>, names: set<string>, status: string)
    requires names <= Members(operation, "responses").Keys && status in Members(operation, "responses")
    ensures base + ResponseSpots(operation, at, names + {status})
         == base + ResponseSpots(operation, at, names)
            + if IsSuccess(status)
              then BodySpots(Members(operation, "responses")[status], at + ["responses", status], MISSING_RESPONSE)
              else {}
  {
    assert ResponseSpots(operation, at, names + {status}) == ResponseSpots(operation, at, names)
            + if IsSuccess(status)
              then BodySpots(Members(operation, "responses")[status], at + ["responses", status], MISSING_RESPONSE)
              else {};
  }

  lemma OperationParts(base: set<Spot>, operation: Json, at: seq<string>)
    ensures base + BodySpots(Get(operation, "requestBody"), at + ["requestBody"], MISSING_REQUEST)
            + ResponseSpots(operation, at, Members(operation, "responses").Keys)
         == base + OperationSpots(operation, at)
  {}

  lemma PathItemStep(base: set<Spot>, item: Json, at: seq<string>, names: set<string>, verb: string)
    requires item.Obj? && names <= item.fields.Keys && verb in item.fields
    ensures base + PathItemSpots(item, at, names + {verb})
         == base + PathItemSpots(item, at, names)
            + if verb in HTTP_METHODS && item.fields[verb].Obj?
              then OperationSpots(item.fields[verb], at + [verb]) else {}
  {
    var operation := item.fields[verb];
    assert !operation.Obj? ==> OperationSpots(operation, at + [verb]) == {};
    assert PathItemSpots(item, at, names + {verb}) == PathItemSpots(item, at, names)
        + if verb in HTTP_METHODS && operation.Obj? then OperationSpots(operation, at + [verb]) else {};
  }

  ghost function PathItemAt(item: Json, path: string): set<Spot> {
    if item.Obj? then PathItemSpots(item, ["paths", path], item.fields.Keys) else {}
  }

  lemma PathsStep(base: set<Spot>, document: Json, names: set<string>, path: string)
    requires names <= Members(document, "paths").Keys && path in Members(document, "paths")
    ensures base + PathsSpots(document, names + {path})
         == base + PathsSpots(document, names) + PathItemAt(Members(document, "paths")[path], path)
  {
    assert PathsSpots(document, names + {path})
        == PathsSpots(document, names) + PathItemAt(Members(document, "paths")[path], path);
  }

  lemma ComponentStep(base: set<Spot>, components: Json, names: set<string>, name: string)
    requires names <= Members(components, "schemas").Keys && name in Members(components, "schemas")
    ensures base + ComponentSpots(components, names)
            + Walk(Members(components, "schemas")[name], ["components", "schemas", name])
         == base + ComponentSpots(components, names + {name})
  {
    assert ComponentSpots(components, names + {name}) == ComponentSpots(components, names)
        + Walk(Members(components, "schemas")[name], ["components", "schemas", name]);
  }

  /** `find_weak_locations`. */
  method FindWeakLocations(document: Json) returns (r: Option<set<WeakLocation>>)
    ensures r.Some? <==> FindSpots(document).Some?
    ensures r.Some? ==> r.value == Records(FindSpots(document).value)
  {
    if !DictOrAbsent(document, "paths") || !DictOrAbsent(document, "components") {
      return None;
    }
    var walker := new Walker();
    walker.WalkOperations(document);
    walker.WalkComponents(Get(document, "components"));
    assert walker.spots == DocumentSpots(document);
    r := Some(walker.findings);
  }

  // ----- the allowlist ratchet -----

  datatype AllowlistEntry = AllowlistEntry(key: WeakLocation, expiry: Option<int>)

  datatype Complaint =
    | Duplicate(key: WeakLocation)
    | Expired(key: WeakLocation)
    | NewWeakness(key: WeakLocation)
    | Stale(key: WeakLocation)

  function Keys(entries: seq<AllowlistEntry>): set<WeakLocation> {
    set i | 0 <= i < |entries| :: entries[i].key
  }

  predicate IsExpired(entry: AllowlistEntry, today: int) {
    entry.expiry.Some? && entry.expiry.value < today
  }

  predicate IsDuplicate(entries: seq<AllowlistEntry>, i: nat)
    requires i < |entries|
  {
    exists j | 0 <= j < i :: entries[j].key == entries[i].key
  }

  /** The allowlist names exactly the findings, once each, and none of its entries has lapsed. */
  ghost predicate AllowlistHolds(findings: set<WeakLocation>, entries: seq<AllowlistEntry>, today: int) {
    && Keys(entries) == findings
    && (forall i | 0 <= i < |entries| :: !IsExpired(entries[i], today) && !IsDuplicate(entries, i))
  }

  /** What each entry is blamed for, in the order of the first loop. */
  function EntryComplaints(entries: seq<AllowlistEntry>, today: int, n: nat): seq<Complaint>
    requires n <= |entries|
  {
    if n == 0 then []
    else EntryComplaints(entries, today, n - 1)
         + (if IsDuplicate(entries, n - 1) then [Duplicate(entries[n - 1].key)] else [])
         + (if IsExpired(entries[n - 1], today) then [Expired(entries[n - 1].key)] else [])
  }

  method CheckEntries(entries: seq<AllowlistEntry>, today: int)
    returns (entryByKey: map<WeakLocation, AllowlistEntry>, complaints: seq<Complaint>)
    ensures entryByKey.Keys == Keys(entries)
    ensures complaints == EntryComplaints(entries, today, |entries|)
    ensures forall c | c in complaints :: c.Duplicate? || c.Expired?
    ensures complaints == [] <==>
            forall j | 0 <= j < |entries| :: !IsExpired(entries[j], today) && !IsDuplicate(entries, j)
  {
    entryByKey, complaints := map[], [];
    for i := 0 to |entries|
      invariant entryByKey.Keys == Keys(entries[..i])
      invariant complaints == EntryComplaints(entries, today, i)
      invariant forall c | c in complaints :: c.Duplicate? || c.Expired?
      invariant complaints == [] <==>
                forall j | 0 <= j < i :: !IsExpired(entries[j], today) && !IsDuplicate(entries, j)
    {
      var entry := entries[i];
      assert entry.key in Keys(entries[..i]) <==> IsDuplicate(entries, i);
      if entry.key in entryByKey {
        complaints := complaints + [Duplicate(entry.key)];
      }
      assert Keys(entries[..i + 1]) == Keys(entries[..i]) + {entry.key};
      entryByKey := entryByKey[entry.key := entry];
      if IsExpired(entry, today) {
        complaints := complaints + [Expired(entry.key)];
      }
    }
    assert entries[..|entries|] == entries;
  }

  /** A set in some listing order; the code's `sorted` picks one. */
  method Listing(keys: set<WeakLocation>) returns (order: seq<WeakLocation>)
    ensures forall key :: key in order <==> key in keys
  {
    order := [];
    var todo := keys;
    while todo != {}
      invariant todo <= keys
      invariant forall key :: key in order <==> key in keys - todo
    {
      var key :| key in todo;
      order, todo := order + [key], todo - {key};
    }
  }

  /** `check_allowlist`: it is silent exactly when the allowlist holds, and each new or stale
      location is named. */
  method CheckAllowlist(findings: set<WeakLocation>, entries: seq<AllowlistEntry>, today: int)
    returns (complaints: seq<Complaint>)
    ensures complaints == [] <==> AllowlistHolds(findings, entries, today)
    ensures EntryComplaints(entries, today, |entries|) <= complaints
    ensures forall key :: NewWeakness(key) in complaints <==> key in findings - Keys(entries)
    ensures forall key :: Stale(key) in complaints <==> key in Keys(entries) - findings
  {
    var entryByKey, first := CheckEntries(entries, today);
    var unlisted := Listing(findings - entryByKey.Keys);
    var stale := Listing(entryByKey.Keys - findings);
    var news := seq(|unlisted|, i requires 0 <= i < |unlisted| => NewWeakness(unlisted[i]));
    var olds := seq(|stale|, i requires 0 <= i < |stale| => Stale(stale[i]));
    complaints := first + news + olds;
    ListingComplaints(first, unlisted, news, stale, olds);
    assert findings == entryByKey.Keys <==> unlisted == [] && stale == [] by {
      assert unlisted != [] ==> unlisted[0] in findings - entryByKey.Keys;
      assert stale != [] ==> stale[0] in entryByKey.Keys - findings;
    }
  }

  lemma ListingComplaints(first: seq<Complaint>, unlisted: seq<WeakLocation>, news: seq<Complaint>,
                          stale: seq<WeakLocation>, olds: seq<Complaint>)
    requires forall c | c in first :: c.Duplicate? || c.Expired?
    requires |news| == |unlisted| && forall i | 0 <= i < |news| :: news[i] == NewWeakness(unlisted[i])
    requires |olds| == |stale| && forall i | 0 <= i < |olds| :: olds[i] == Stale(stale[i])
    ensures forall key :: NewWeakness(key) in first + news + olds <==> key in unlisted
    ensures forall key :: Stale(key) in first + news + olds <==> key in stale
  {
    forall key
      ensures NewWeakness(key) in first + news + olds <==> key in unlisted
      ensures Stale(key) in first + news + olds <==> key in stale
    {
      if key in unlisted {
        var i :| 0 <= i < |unlisted| && unlisted[i] == key;
        assert news[i] in news;
      }
      if key in stale {
        var i :| 0 <= i < |stale| && stale[i] == key;
        assert olds[i] in olds;
      }
    }
  }

  /** A passing ratchet pins the document down: every weak position is allowlisted, every
      entry of the two schema kinds resolves to `{}` or `true`, and positions with
      different tokens never share an entry. */
  lemma RatchetIsExact(document: Json, entries: seq<AllowlistEntry>, today: int)
    requires FindSpots(document).Some?
    requires AllowlistHolds(Records(FindSpots(document).value), entries, today)
    ensures forall site, s | SiteHas(document, site, s) :: Record(s) in Keys(entries)
    ensures forall i | 0 <= i < |entries| && entries[i].key.kind == EMPTY_OBJECT ::
              Evaluate(document, Tokens(entries[i].key.pointer)) == Found(Obj(map[]))
    ensures forall i | 0 <= i < |entries| && entries[i].key.kind == OPEN_PROPERTIES ::
              Evaluate(document, Tokens(entries[i].key.pointer)) == Found(Bool(true))
    ensures |entries| == |FindSpots(document).value|
  {
    var spots := FindSpots(document).value;
    forall site, s | SiteHas(document, site, s)
      ensures Record(s) in Keys(entries)
    {
      FindSpotsIsExact(document, s);
    }
    forall i | 0 <= i < |entries|
      ensures entries[i].key.kind == EMPTY_OBJECT ==>
                Evaluate(document, Tokens(entries[i].key.pointer)) == Found(Obj(map[]))
      ensures entries[i].key.kind == OPEN_PROPERTIES ==>
                Evaluate(document, Tokens(entries[i].key.pointer)) == Found(Bool(true))
    {
      assert entries[i].key in Keys(entries);
      var s :| s in spots && Record(s) == entries[i].key;
      FindingsResolve(document, s);
    }
    RecordsCount(spots);
    KeysCount(entries);
  }

  lemma {:induction false} RecordsCount(spots: set<Spot>)
    ensures |Records(spots)| == |spots|
  {
    if spots != {} {
      var s :| s in spots;
      RecordsCount(spots - {s});
      if Record(s) in Records(spots - {s}) {
        var other :| other in spots - {s} && Record(other) == Record(s);
        RecordInjective(other, s);
      }
      assert Records(spots) == Records(spots - {s}) + {Record(s)};
    }
  }

  lemma {:induction false} KeysCount(entries: seq<AllowlistEntry>)
    requires forall i | 0 <= i < |entries| :: !IsDuplicate(entries, i)
    ensures |Keys(entries)| == |entries|
  {
    if entries != [] {
      var last := |entries| - 1;
      var rest := entries[..last];
      forall i | 0 <= i < |rest|
        ensures !IsDuplicate(rest, i)
      {
        assert !IsDuplicate(entries, i);
      }
      KeysCount(rest);
      assert !IsDuplicate(entries, last);
      assert Keys(entries) == Keys(rest) + {entries[last].key};
    }
  }
}
