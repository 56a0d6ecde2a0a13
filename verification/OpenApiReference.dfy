/** What counts as a weak schema position of an OpenAPI document, with every keyword, method and
    kind written out, and the proof that the walk finds exactly those. */
module OpenApiReference {
  import opened Wrappers
  import opened Text
  import opened Json
  import opened OpenApiWalk
  import opened OpenApiDocument
  import opened JsonPointer
  import opened OpenApiQuality

  // ----- below one schema -----

  /** The value under a key of a dict. */
  predicate Has(node: Json, key: string, value: Json) {
    node.Obj? && key in node.fields && node.fields[key] == value
  }

  predicate IsListKeyword(kw: string) { kw == "oneOf" || kw == "anyOf" || kw == "allOf" || kw == "prefixItems" }

  predicate IsSchemaKeyword(kw: string) {
    kw == "items" || kw == "additionalProperties" || kw == "contains" || kw == "not" || kw == "if" || kw == "then"
    || kw == "else"
  }

  /** The child is one level below the node: an item of a list keyword, the dict under a schema
      keyword, or a property. */
  predicate Below(node: Json, tokens: seq<string>, child: Json) {
    match |tokens|
    case 1 => IsSchemaKeyword(tokens[0]) && child.Obj? && Has(node, tokens[0], child)
    case 2 =>
      || (IsListKeyword(tokens[0]) && ItemOf(Get(node, tokens[0]), tokens[1], child))
      || (tokens[0] == "properties" && Has(Get(node, "properties"), tokens[1], child))
    case _ => false
  }

  predicate ItemOf(list: Json, token: string, child: Json) {
    list.Arr? && exists i | 0 <= i < |list.items| :: token == Decimal(i) && list.items[i] == child
  }

  /** Going down, level by level. */
  ghost predicate ReachedBy(schema: Json, levels: seq<seq<string>>, node: Json)
    decreases |levels|
  {
    if levels == [] then node == schema
    else exists child :: Below(schema, levels[0], child) && ReachedBy(child, levels[1..], node)
  }

  function Flatten(levels: seq<seq<string>>): seq<string> {
    if levels == [] then [] else levels[0] + Flatten(levels[1..])
  }

  /** What is weak about a node: it is empty, or it allows any additional property. */
  predicate WeakAs(node: Json, at: seq<string>, s: Spot) {
    || (node == Obj(map[]) && s == Spot(at, "empty-object-schema"))
    || (Has(node, "additionalProperties", Bool(true))
        && s == Spot(at + ["additionalProperties"], "unrestricted-additional-properties"))
  }

  ghost predicate WeakUnder(schema: Json, at: seq<string>, s: Spot) {
    exists levels, node :: ReachedBy(schema, levels, node) && WeakAs(node, at + Flatten(levels), s)
  }

  lemma ListKeywords(kw: string)
    ensures kw in LIST_KEYWORDS <==> IsListKeyword(kw)
  {}

  lemma SchemaKeywords(kw: string)
    ensures kw in NESTED_KEYWORDS <==> IsSchemaKeyword(kw)
  {}

  lemma StepIsBelow(schema: Json, step: Step)
    requires Follow(schema, step).Some?
    ensures Below(schema, StepTokens(step), Follow(schema, step).value)
  {
    match step
    case Variant(keyword, index) =>
      ListKeywords(keyword);
      assert Get(schema, keyword).items[index] == Follow(schema, step).value;
    case Nested(keyword) => SchemaKeywords(keyword);
    case Property(name) =>
  }

  lemma BelowIsStep(schema: Json, tokens: seq<string>, child: Json) returns (step: Step)
    requires Below(schema, tokens, child)
    ensures StepTokens(step) == tokens && Follow(schema, step) == Some(child)
  {
    if |tokens| == 1 {
      SchemaKeywords(tokens[0]);
      step := Nested(tokens[0]);
    } else if tokens[0] == "properties" && Has(Get(schema, "properties"), tokens[1], child) {
      step := Property(tokens[1]);
    } else {
      ListKeywords(tokens[0]);
      var list := Get(schema, tokens[0]);
      var i :| 0 <= i < |list.items| && tokens[1] == Decimal(i) && list.items[i] == child;
      step := Variant(tokens[0], i);
    }
  }

  lemma {:induction false} StepsAreLevels(schema: Json, steps: seq<Step>) returns (levels: seq<seq<string>>)
    requires FollowAll(schema, steps).Some?
    ensures ReachedBy(schema, levels, FollowAll(schema, steps).value) && Flatten(levels) == PathTokens(steps)
    decreases |steps|
  {
    levels := [];
    if steps != [] {
      StepIsBelow(schema, steps[0]);
      var rest := StepsAreLevels(Follow(schema, steps[0]).value, steps[1..]);
      levels := [StepTokens(steps[0])] + rest;
      assert levels[1..] == rest;
    }
  }

  lemma {:induction false} LevelsAreSteps(schema: Json, levels: seq<seq<string>>, node: Json) returns (steps: seq<Step>)
    requires ReachedBy(schema, levels, node)
    ensures FollowAll(schema, steps) == Some(node) && PathTokens(steps) == Flatten(levels)
    decreases |levels|
  {
    steps := [];
    if levels != [] {
      var child :| Below(schema, levels[0], child) && ReachedBy(child, levels[1..], node);
      var step := BelowIsStep(schema, levels[0], child);
      var rest := LevelsAreSteps(child, levels[1..], node);
      steps := [step] + rest;
      assert steps[1..] == rest;
    }
  }

  lemma WeakAsMeans(node: Json, at: seq<string>, s: Spot)
    ensures WeakNode(node, at, s) <==> WeakAs(node, at, s)
  {}

  /** The walk below one schema finds exactly the weak positions under it. */
  lemma WalkFindsWeak(schema: Json, at: seq<string>, s: Spot)
    ensures s in Walk(schema, at) <==> WeakUnder(schema, at, s)
  {
    WalkIsExact(schema, at, s);
    if s in Walk(schema, at) {
      var steps :| WeakBelow(schema, at, steps, s);
      var levels := StepsAreLevels(schema, steps);
      WeakAsMeans(FollowAll(schema, steps).value, at + PathTokens(steps), s);
    }
    if WeakUnder(schema, at, s) {
      var levels, node :| ReachedBy(schema, levels, node) && WeakAs(node, at + Flatten(levels), s);
      var steps := LevelsAreSteps(schema, levels, node);
      WeakAsMeans(node, at + PathTokens(steps), s);
      assert WeakBelow(schema, at, steps, s);
    }
  }

  /** What the walk finds in a child, it finds in the node. */
  lemma WalkIncludesBelow(node: Json, at: seq<string>, tokens: seq<string>, child: Json)
    requires Below(node, tokens, child)
    ensures Walk(child, at + tokens) <= Walk(node, at)
  {
    forall s | s in Walk(child, at + tokens)
      ensures s in Walk(node, at)
    {
      var step := BelowIsStep(node, tokens, child);
      WalkFold(node, at, step, s);
    }
  }

  // ----- in a document -----

  predicate IsMethod(verb: string) {
    verb == "get" || verb == "put" || verb == "post" || verb == "delete" || verb == "patch" || verb == "options"
    || verb == "head" || verb == "trace"
  }

  /** The operation of a path; Null if there is none. */
  function OperationIn(document: Json, path: string, verb: string): Json {
    Get(Get(Get(document, "paths"), path), verb)
  }

  /** A document has a schema position at these tokens; `schema` is Null where none is given, and
      then `missing` says what is reported. */
  ghost predicate Position(document: Json, tokens: seq<string>, schema: Json, missing: string) {
    || (exists name :: tokens == ["components", "schemas", name]
                       && Has(Get(Get(document, "components"), "schemas"), name, schema) && schema != Null)
    || (exists path, verb, media :: RequestPosition(document, path, verb, media, tokens, schema)
                                    && missing == "missing-request-schema")
    || (exists path, verb, status, media :: ResponsePosition(document, path, verb, status, media, tokens, schema)
                                            && missing == "missing-success-response-schema")
  }

  predicate MediaPosition(body: Json, media: string, schema: Json) {
    Get(body, "content").Obj? && media in Get(body, "content").fields
    && schema == Get(Get(body, "content").fields[media], "schema")
  }

  predicate RequestPosition(document: Json, path: string, verb: string, media: string, tokens: seq<string>,
                            schema: Json)
  {
    && IsMethod(verb) && tokens == ["paths", path, verb, "requestBody", "content", media, "schema"]
    && MediaPosition(Get(OperationIn(document, path, verb), "requestBody"), media, schema)
  }

  predicate ResponsePosition(document: Json, path: string, verb: string, status: string, media: string,
                             tokens: seq<string>, schema: Json)
  {
    && IsMethod(verb) && status != "" && status[0] == '2'
    && tokens == ["paths", path, verb, "responses", status, "content", media, "schema"]
    && MediaPosition(Get(Get(OperationIn(document, path, verb), "responses"), status), media, schema)
  }

  /** A weak position: a position without a schema, or one under a schema. */
  ghost predicate WeakIn(document: Json, s: Spot) {
    exists tokens, schema, missing ::
      Position(document, tokens, schema, missing)
      && if schema == Null then s == Spot(tokens, missing) else WeakUnder(schema, tokens, s)
  }

  lemma Methods(verb: string)
    ensures verb in HTTP_METHODS <==> IsMethod(verb)
  {}

  lemma MissingKinds()
    ensures MISSING_REQUEST == "missing-request-schema" && MISSING_RESPONSE == "missing-success-response-schema"
  {}

  lemma RequestMeans(document: Json, path: string, verb: string, media: string, tokens: seq<string>, schema: Json)
    ensures var site := Request(path, verb, media);
            RequestPosition(document, path, verb, media, tokens, schema) <==>
            HasSite(document, site) && SchemaOf(document, site) == schema && SiteTokens(site) == tokens
  {
    Methods(verb);
  }

  lemma ResponseMeans(document: Json, path: string, verb: string, status: string, media: string,
                      tokens: seq<string>, schema: Json)
    ensures var site := Response(path, verb, status, media);
            ResponsePosition(document, path, verb, status, media, tokens, schema) <==>
            HasSite(document, site) && SchemaOf(document, site) == schema && SiteTokens(site) == tokens
  {
    Methods(verb);
  }

  lemma SiteIsPosition(document: Json, site: Site, missing: string)
    requires HasSite(document, site) && (SchemaOf(document, site) == Null ==> !site.Component?)
    requires missing == if site.Request? then "missing-request-schema" else "missing-success-response-schema"
    ensures Position(document, SiteTokens(site), SchemaOf(document, site), missing)
  {
    var schema, tokens := SchemaOf(document, site), SiteTokens(site);
    match site
    case Component(name) => assert tokens == ["components", "schemas", name];
    case Request(path, verb, media) => RequestMeans(document, path, verb, media, tokens, schema);
    case Response(path, verb, status, media) => ResponseMeans(document, path, verb, status, media, tokens, schema);
  }

  lemma PositionIsSite(document: Json, tokens: seq<string>, schema: Json, missing: string) returns (site: Site)
    requires Position(document, tokens, schema, missing)
    ensures HasSite(document, site) && SchemaOf(document, site) == schema && SiteTokens(site) == tokens
    ensures schema == Null ==>
              (site.Request? && missing == "missing-request-schema")
              || (site.Response? && missing == "missing-success-response-schema")
  {
    if name :| tokens == ["components", "schemas", name]
               && Has(Get(Get(document, "components"), "schemas"), name, schema) && schema != Null {
      site := Component(name);
    } else if path, verb, media :| RequestPosition(document, path, verb, media, tokens, schema)
                                   && missing == "missing-request-schema" {
      RequestMeans(document, path, verb, media, tokens, schema);
      site := Request(path, verb, media);
    } else {
      var path, verb, status, media :| ResponsePosition(document, path, verb, status, media, tokens, schema)
                                       && missing == "missing-success-response-schema";
      ResponseMeans(document, path, verb, status, media, tokens, schema);
      site := Response(path, verb, status, media);
    }
  }

  lemma SiteIsWeak(document: Json, site: Site, s: Spot)
    requires SiteHas(document, site, s)
    ensures WeakIn(document, s)
  {
    var schema, tokens := SchemaOf(document, site), SiteTokens(site);
    var missing := if site.Request? then "missing-request-schema" else "missing-success-response-schema";
    MissingKinds();
    SiteIsPosition(document, site, missing);
    if schema != Null {
      WalkIsExact(schema, tokens, s);
      WalkFindsWeak(schema, tokens, s);
    }
  }

  lemma WeakIsSite(document: Json, s: Spot) returns (site: Site)
    requires WeakIn(document, s)
    ensures SiteHas(document, site, s)
  {
    var tokens, schema, missing :|
      Position(document, tokens, schema, missing)
      && if schema == Null then s == Spot(tokens, missing) else WeakUnder(schema, tokens, s);
    site := PositionIsSite(document, tokens, schema, missing);
    MissingKinds();
    if schema != Null {
      WalkFindsWeak(schema, tokens, s);
      WalkIsExact(schema, tokens, s);
    }
  }

  /** The documents the walk accepts: `paths` and `components` are dicts where they are given. */
  predicate IsWalkable(document: Json) {
    && document.Obj?
    && ("paths" in document.fields ==> document.fields["paths"].Obj?)
    && ("components" in document.fields ==> document.fields["components"].Obj?)
  }

  /** The walk finds exactly the weak positions of the document: its components, its request bodies
      under the eight methods, and its responses whose status starts with 2. */
  lemma FindSpotsFindsWeak(document: Json, s: Spot)
    ensures FindSpots(document).Some? <==> IsWalkable(document)
    ensures IsWalkable(document) ==> (s in FindSpots(document).value <==> WeakIn(document, s))
  {
    if IsWalkable(document) {
      FindSpotsIsExact(document, s);
      if site :| SiteHas(document, site, s) {
        SiteIsWeak(document, site, s);
      }
      if WeakIn(document, s) {
        var site := WeakIsSite(document, s);
      }
    }
  }

  // ----- the ratchet -----

  /** An entry names a position: its pointer and the reason. */
  predicate Names(entry: AllowlistEntry, s: Spot) { entry.key == WeakLocation(Render(s.tokens), s.kind) }

  ghost predicate NamesWeak(document: Json, entry: AllowlistEntry) {
    exists s :: WeakIn(document, s) && Names(entry, s)
  }

  predicate IsNamed(entries: seq<AllowlistEntry>, s: Spot) { exists i | 0 <= i < |entries| :: Names(entries[i], s) }

  /** Every weak position of the document is named by an entry, every entry names one, no two entries
      are the same, and none is past its last day. */
  ghost predicate IsUpToDate(document: Json, entries: seq<AllowlistEntry>, today: int) {
    && (forall s | WeakIn(document, s) :: IsNamed(entries, s))
    && (forall i | 0 <= i < |entries| :: NamesWeak(document, entries[i]))
    && (forall i, j | 0 <= i < j < |entries| :: entries[i].key != entries[j].key)
    && (forall i | 0 <= i < |entries| && entries[i].expiry.Some? :: today <= entries[i].expiry.value)
  }

  lemma NamedIsListed(entries: seq<AllowlistEntry>, s: Spot)
    ensures IsNamed(entries, s) <==> Record(s) in Keys(entries)
  {
    if IsNamed(entries, s) {
      var i :| 0 <= i < |entries| && Names(entries[i], s);
      assert entries[i].key == Record(s);
    }
    if Record(s) in Keys(entries) {
      var i :| 0 <= i < |entries| && entries[i].key == Record(s);
      assert Names(entries[i], s);
    }
  }

  lemma AllNamed(document: Json, entries: seq<AllowlistEntry>, spots: set<Spot>)
    requires forall s :: s in spots <==> WeakIn(document, s)
    ensures Records(spots) <= Keys(entries) <==> forall s | WeakIn(document, s) :: IsNamed(entries, s)
  {
    forall s
      ensures IsNamed(entries, s) <==> Record(s) in Keys(entries)
    {
      NamedIsListed(entries, s);
    }
    if Records(spots) <= Keys(entries) {
      forall s | WeakIn(document, s)
        ensures IsNamed(entries, s)
      {
        assert Record(s) in Records(spots);
      }
    }
  }

  lemma WeakIsFound(document: Json, spots: set<Spot>, entry: AllowlistEntry)
    requires forall s :: s in spots <==> WeakIn(document, s)
    ensures NamesWeak(document, entry) <==> entry.key in Records(spots)
  {
    if NamesWeak(document, entry) {
      var s :| WeakIn(document, s) && Names(entry, s);
      assert s in spots && Record(s) == entry.key;
    }
    if entry.key in Records(spots) {
      var s :| s in spots && Record(s) == entry.key;
      assert Names(entry, s);
    }
  }

  lemma AllWeak(document: Json, entries: seq<AllowlistEntry>, spots: set<Spot>)
    requires forall s :: s in spots <==> WeakIn(document, s)
    ensures Keys(entries) <= Records(spots) <==> forall i | 0 <= i < |entries| :: NamesWeak(document, entries[i])
  {
    forall i | 0 <= i < |entries|
      ensures NamesWeak(document, entries[i]) <==> entries[i].key in Records(spots)
    {
      WeakIsFound(document, spots, entries[i]);
      assert entries[i].key in Keys(entries);
    }
  }

  /** The allowlist holds exactly when it is up to date with the document. */
  lemma RatchetIsUpToDate(document: Json, entries: seq<AllowlistEntry>, today: int)
    requires IsWalkable(document)
    ensures FindSpots(document).Some?
    ensures AllowlistHolds(Records(FindSpots(document).value), entries, today) <==>
            IsUpToDate(document, entries, today)
  {
    forall s
      ensures FindSpots(document).Some? && (s in FindSpots(document).value <==> WeakIn(document, s))
    {
      FindSpotsFindsWeak(document, s);
    }
    HoldsIsUpToDate(document, entries, today, FindSpots(document).value);
  }

  lemma HoldsIsUpToDate(document: Json, entries: seq<AllowlistEntry>, today: int, spots: set<Spot>)
    requires forall s :: s in spots <==> WeakIn(document, s)
    ensures AllowlistHolds(Records(spots), entries, today) <==> IsUpToDate(document, entries, today)
  {
    AllNamed(document, entries, spots);
    AllWeak(document, entries, spots);
    NoDuplicates(entries);
    NothingLapsed(entries, today);
  }

  lemma NothingLapsed(entries: seq<AllowlistEntry>, today: int)
    ensures (forall i | 0 <= i < |entries| :: !IsExpired(entries[i], today)) <==>
            forall i | 0 <= i < |entries| && entries[i].expiry.Some? :: today <= entries[i].expiry.value
  {
    assert forall i | 0 <= i < |entries| ::
      !IsExpired(entries[i], today) <==> (entries[i].expiry.Some? ==> today <= entries[i].expiry.value);
  }

  lemma NoDuplicates(entries: seq<AllowlistEntry>)
    ensures (forall i | 0 <= i < |entries| :: !IsDuplicate(entries, i)) <==>
            forall i, j | 0 <= i < j < |entries| :: entries[i].key != entries[j].key
  {
    if forall i | 0 <= i < |entries| :: !IsDuplicate(entries, i) {
      forall i, j | 0 <= i < j < |entries|
        ensures entries[i].key != entries[j].key
      {
        assert !IsDuplicate(entries, j);
      }
    }
  }
}
