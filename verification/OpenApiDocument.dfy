/** The document-level walk of check_agent_server_openapi_quality.py: which schema sites
    it visits, and what a finding says about the document. */
module OpenApiDocument {
  import opened Wrappers
  import opened Text
  import opened Json
  import opened JsonPointer
  import opened OpenApiWalk

  predicate IsSuccess(status: string) { status != "" && status[0] == '2' }

  /** One media-type entry of a request or response body. */
  function MediaSpots(media: Json, at: seq<string>, missing: string): set<Spot> {
    if Get(media, "schema") == Null then {Spot(at, missing)} else Walk(Get(media, "schema"), at)
  }

  /** The media types `names` of a body's content; the other functions of this shape
      likewise range over the part of a dict that has been visited. */
  function ContentSpots(body: Json, at: seq<string>, missing: string, names: set<string>): set<Spot>
    requires names <= Members(body, "content").Keys
  {
    set media, s | media in names
                   && s in MediaSpots(Members(body, "content")[media], at + ["content", media, "schema"], missing) :: s
  }

  function BodySpots(body: Json, at: seq<string>, missing: string): set<Spot> {
    ContentSpots(body, at, missing, Members(body, "content").Keys)
  }

  function ResponseSpots(operation: Json, at: seq<string>, names: set<string>): set<Spot>
    requires names <= Members(operation, "responses").Keys
  {
    set status, s | status in names && IsSuccess(status)
                    && s in BodySpots(Members(operation, "responses")[status], at + ["responses", status],
                                      MISSING_RESPONSE) :: s
  }

  function OperationSpots(operation: Json, at: seq<string>): set<Spot> {
    BodySpots(Get(operation, "requestBody"), at + ["requestBody"], MISSING_REQUEST)
    + ResponseSpots(operation, at, Members(operation, "responses").Keys)
  }

  function PathItemSpots(item: Json, at: seq<string>, names: set<string>): set<Spot>
    requires item.Obj? && names <= item.fields.Keys
  {
    set verb, s | verb in names && verb in HTTP_METHODS && s in OperationSpots(item.fields[verb], at + [verb]) :: s
  }

  /** `_walk_operation_schemas`. */
  function PathsSpots(document: Json, names: set<string>): set<Spot>
    requires names <= Members(document, "paths").Keys
  {
    set path, s | path in names && Members(document, "paths")[path].Obj?
                  && s in PathItemSpots(Members(document, "paths")[path], ["paths", path],
                                        Members(document, "paths")[path].fields.Keys) :: s
  }

  function ComponentSpots(components: Json, names: set<string>): set<Spot>
    requires names <= Members(components, "schemas").Keys
  {
    set name, s | name in names
                  && s in Walk(Members(components, "schemas")[name], ["components", "schemas", name]) :: s
  }

  function DocumentSpots(document: Json): set<Spot> {
    PathsSpots(document, Members(document, "paths").Keys)
    + ComponentSpots(Get(document, "components"), Members(Get(document, "components"), "schemas").Keys)
  }

  /** `document.get(key, {})`, where the code goes on to use the result as a dict. */
  predicate DictOrAbsent(document: Json, key: string) {
    document.Obj? && (key in document.fields ==> document.fields[key].Obj?)
  }

  /** `find_weak_locations`; None is the AttributeError of a non-dict document, `paths` or
      `components`. */
  function FindSpots(document: Json): Option<set<Spot>> {
    if DictOrAbsent(document, "paths") && DictOrAbsent(document, "components")
    then Some(DocumentSpots(document))
    else None
  }

  // ----- the reference: schema sites of a document -----

  datatype Site =
    | Component(name: string)
    | Request(path: string, verb: string, media: string)
    | Response(path: string, verb: string, status: string, media: string)

  function SiteTokens(site: Site): seq<string> {
    match site
    case Component(name) => ["components", "schemas"] + [name]
    case Request(path, verb, media) =>
      ["paths", path] + [verb] + ["requestBody"] + ["content", media, "schema"]
    case Response(path, verb, status, media) =>
      ["paths", path] + [verb] + ["responses", status] + ["content", media, "schema"]
  }

  function Operation(document: Json, path: string, verb: string): Json {
    if verb in HTTP_METHODS then Get(Get(Get(document, "paths"), path), verb) else Null
  }

  function BodyAt(document: Json, site: Site): Json
    requires !site.Component?
  {
    match site
    case Request(path, verb, _) => Get(Operation(document, path, verb), "requestBody")
    case Response(path, verb, status, _) =>
      if IsSuccess(status) then Get(Get(Operation(document, path, verb), "responses"), status) else Null
  }

  predicate HasSite(document: Json, site: Site) {
    match site
    case Component(name) => name in Members(Get(document, "components"), "schemas")
    case _ => site.media in Members(BodyAt(document, site), "content")
  }

  /** The schema of a site; Null when a media entry carries none. */
  function SchemaOf(document: Json, site: Site): Json
    requires HasSite(document, site)
  {
    match site
    case Component(name) => Members(Get(document, "components"), "schemas")[name]
    case _ => Get(Members(BodyAt(document, site), "content")[site.media], "schema")
  }

  /** `s` records a weak position of this site: a missing schema, or a weak node below it. */
  ghost predicate SiteHas(document: Json, site: Site, s: Spot) {
    HasSite(document, site) &&
    if SchemaOf(document, site) == Null
    then (site.Request? && s == Spot(SiteTokens(site), MISSING_REQUEST)) ||
         (site.Response? && s == Spot(SiteTokens(site), MISSING_RESPONSE))
    else exists steps :: WeakBelow(SchemaOf(document, site), SiteTokens(site), steps, s)
  }

  lemma NoWalkOfNull(at: seq<string>)
    ensures Walk(Null, at) == {}
  {}

  /** The code's per-site findings are the reference's. */
  lemma SiteSpots(document: Json, site: Site, s: Spot)
    requires HasSite(document, site)
    ensures SiteHas(document, site, s) <==>
            s in (match site
                  case Component(_) => Walk(SchemaOf(document, site), SiteTokens(site))
                  case Request(_, _, media) =>
                    MediaSpots(Members(BodyAt(document, site), "content")[media], SiteTokens(site), MISSING_REQUEST)
                  case Response(_, _, _, media) =>
                    MediaSpots(Members(BodyAt(document, site), "content")[media], SiteTokens(site), MISSING_RESPONSE))
  {
    WalkIsExact(SchemaOf(document, site), SiteTokens(site), s);
    NoWalkOfNull(SiteTokens(site));
  }

  lemma FindSpotsSound(document: Json, s: Spot) returns (site: Site)
    requires s in DocumentSpots(document)
    ensures SiteHas(document, site, s)
  {
    var components := Get(document, "components");
    if s in ComponentSpots(components, Members(components, "schemas").Keys) {
      var name :| name in Members(components, "schemas")
                  && s in Walk(Members(components, "schemas")[name], ["components", "schemas", name]);
      site := Component(name);
      assert SiteTokens(site) == ["components", "schemas", name];
    } else {
      var path :| path in Members(document, "paths") && Members(document, "paths")[path].Obj?
                  && s in PathItemSpots(Members(document, "paths")[path], ["paths", path],
                                        Members(document, "paths")[path].fields.Keys);
      site := PathItemSound(document, path, s);
    }
    SiteSpots(document, site, s);
  }

  lemma PathItemSound(document: Json, path: string, s: Spot) returns (site: Site)
    requires path in Members(document, "paths") && Members(document, "paths")[path].Obj?
    requires s in PathItemSpots(Members(document, "paths")[path], ["paths", path],
                                Members(document, "paths")[path].fields.Keys)
    ensures SiteHas(document, site, s)
  {
    var item := Members(document, "paths")[path];
    var verb :| verb in item.fields && verb in HTTP_METHODS
                && s in OperationSpots(item.fields[verb], ["paths", path] + [verb]);
    var operation := item.fields[verb];
    assert Operation(document, path, verb) == operation;
    var at := ["paths", path] + [verb];
    if s in BodySpots(Get(operation, "requestBody"), at + ["requestBody"], MISSING_REQUEST) {
      var media :| media in Members(Get(operation, "requestBody"), "content")
                   && s in MediaSpots(Members(Get(operation, "requestBody"), "content")[media],
                                      at + ["requestBody"] + ["content", media, "schema"], MISSING_REQUEST);
      site := Request(path, verb, media);
    } else {
      var status :| status in Members(operation, "responses") && IsSuccess(status)
                    && s in BodySpots(Members(operation, "responses")[status], at + ["responses", status],
                                      MISSING_RESPONSE);
      var body := Members(operation, "responses")[status];
      var media :| media in Members(body, "content")
                   && s in MediaSpots(Members(body, "content")[media],
                                      at + ["responses", status] + ["content", media, "schema"], MISSING_RESPONSE);
      site := Response(path, verb, status, media);
    }
    SiteSpots(document, site, s);
  }

  lemma FindSpotsComplete(document: Json, site: Site, s: Spot)
    requires SiteHas(document, site, s)
    ensures s in DocumentSpots(document)
  {
    SiteSpots(document, site, s);
    match site
    case Component(name) =>
      assert SiteTokens(site) == ["components", "schemas", name];
    case Request(path, verb, media) =>
      var operation, at := Operation(document, path, verb), ["paths", path] + [verb];
      assert s in BodySpots(Get(operation, "requestBody"), at + ["requestBody"], MISSING_REQUEST);
      OperationComplete(document, path, verb, s);
    case Response(path, verb, status, media) =>
      var operation, at := Operation(document, path, verb), ["paths", path] + [verb];
      assert s in BodySpots(Members(operation, "responses")[status], at + ["responses", status], MISSING_RESPONSE);
      OperationComplete(document, path, verb, s);
  }

  lemma OperationComplete(document: Json, path: string, verb: string, s: Spot)
    requires Operation(document, path, verb) != Null
    requires s in OperationSpots(Operation(document, path, verb), ["paths", path] + [verb])
    ensures s in DocumentSpots(document)
  {
    var item := Members(document, "paths")[path];
    assert s in PathItemSpots(item, ["paths", path], item.fields.Keys);
  }

  /** For every document the walk accepts, it finds exactly the weak positions of its
      components, request bodies and 2xx responses. */
  lemma FindSpotsIsExact(document: Json, s: Spot)
    requires FindSpots(document).Some?
    ensures s in FindSpots(document).value <==> exists site :: SiteHas(document, site, s)
  {
    if s in FindSpots(document).value {
      var site := FindSpotsSound(document, s);
    }
    forall site | SiteHas(document, site, s)
      ensures s in FindSpots(document).value
    {
      FindSpotsComplete(document, site, s);
    }
  }

  // ----- where the records point -----

  lemma AtGet(document: Json, at: seq<string>, node: Json, key: string)
    requires At(document, at) == Some(node) && Get(node, key) != Null
    ensures At(document, at + [key]) == Some(Get(node, key))
  {
    AtMember(node, key);
    AtConcat(document, at, [key]);
  }

  lemma OperationLocates(document: Json, path: string, verb: string)
    requires Operation(document, path, verb) != Null
    ensures At(document, ["paths", path] + [verb]) == Some(Operation(document, path, verb))
  {
    var paths := Get(document, "paths");
    AtMember(document, "paths");
    AtGet(document, ["paths"], paths, path);
    assert ["paths"] + [path] == ["paths", path];
    AtGet(document, ["paths", path], Get(paths, path), verb);
  }

  /** A site's tokens locate its schema in the document; a missing schema is null or absent. */
  lemma SiteLocates(document: Json, site: Site)
    requires HasSite(document, site)
    ensures SchemaOf(document, site) != Null ==> At(document, SiteTokens(site)) == Some(SchemaOf(document, site))
    ensures !site.Component? && SchemaOf(document, site) == Null ==>
              At(document, SiteTokens(site)) in {None, Some(Null)}
  {
    match site
    case Component(name) =>
      var components := Get(document, "components");
      AtMember(document, "components");
      AtMembers(components, "schemas", name);
      AtConcat(document, ["components"], ["schemas", name]);
      assert ["components"] + ["schemas", name] == SiteTokens(site);
    case Request(path, verb, media) =>
      var operation := Operation(document, path, verb);
      OperationLocates(document, path, verb);
      var at := ["paths", path] + [verb];
      AtGet(document, at, operation, "requestBody");
      MediaLocates(document, at + ["requestBody"], BodyAt(document, site), media);
    case Response(path, verb, status, media) =>
      var operation := Operation(document, path, verb);
      OperationLocates(document, path, verb);
      var at := ["paths", path] + [verb];
      AtGet(document, at, operation, "responses");
      AtGet(document, at + ["responses"], Get(operation, "responses"), status);
      assert at + ["responses"] + [status] == at + ["responses", status];
      MediaLocates(document, at + ["responses", status], BodyAt(document, site), media);
  }

  lemma MediaLocates(document: Json, at: seq<string>, body: Json, media: string)
    requires At(document, at) == Some(body) && media in Members(body, "content")
    ensures var entry := Members(body, "content")[media];
            var tokens := at + ["content", media, "schema"];
            && (Get(entry, "schema") != Null ==> At(document, tokens) == Some(Get(entry, "schema")))
            && (Get(entry, "schema") == Null ==> At(document, tokens) in {None, Some(Null)})
  {
    var entry := Members(body, "content")[media];
    AtMembers(body, "content", media);
    AtConcat(document, at, ["content", media]);
    AtConcat(document, at + ["content", media], ["schema"]);
    assert at + ["content", media] + ["schema"] == at + ["content", media, "schema"];
    if entry.Obj? && "schema" in entry.fields {
      AtMember(entry, "schema");
    } else {
      assert !IsDigit("schema"[0]) && "schema"[0] !in "+-";
    }
  }

  lemma KindsDiffer()
    ensures EMPTY_OBJECT != OPEN_PROPERTIES && EMPTY_OBJECT != MISSING_REQUEST && EMPTY_OBJECT != MISSING_RESPONSE
    ensures OPEN_PROPERTIES != MISSING_REQUEST && OPEN_PROPERTIES != MISSING_RESPONSE
  {
    assert EMPTY_OBJECT[0] == 'e' && OPEN_PROPERTIES[0] == 'u';
    assert MISSING_REQUEST[0] == 'm' && MISSING_RESPONSE[0] == 'm';
  }

  /** Soundness through the resolver: the pointer of an `empty-object-schema` finding
      resolves to exactly `{}`, that of an `unrestricted-additional-properties` finding to
      exactly `true`, and where a schema is reported missing there is none, or null. */
  lemma FindingsResolve(document: Json, s: Spot)
    requires FindSpots(document).Some? && s in FindSpots(document).value
    ensures s.kind == EMPTY_OBJECT ==> Evaluate(document, Tokens(Render(s.tokens))) == Found(Obj(map[]))
    ensures s.kind == OPEN_PROPERTIES ==> Evaluate(document, Tokens(Render(s.tokens))) == Found(Bool(true))
    ensures s.kind == MISSING_REQUEST || s.kind == MISSING_RESPONSE ==> At(document, s.tokens) in {None, Some(Null)}
  {
    KindsDiffer();
    var site := FindSpotsSound(document, s);
    var schema := SchemaOf(document, site);
    SiteLocates(document, site);
    if s.kind == EMPTY_OBJECT || s.kind == OPEN_PROPERTIES {
      var steps :| WeakBelow(schema, SiteTokens(site), steps, s);
      WeakBelowLocates(document, schema, SiteTokens(site), steps, s);
      assert s.tokens != [];
      ResolveRendered(document, s.tokens);
    }
  }
}
