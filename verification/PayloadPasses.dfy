/** When a payload passes the compatibility check, in terms of what is stored where. */
module PayloadPasses {
  import opened Wrappers
  import opened Text
  import opened PersistedPayload
  import opened PersistedReleases

  predicate IsCurrent(version: Scalar, current: int) { SameValue(version, Int(current)) }

  /** The dump is a mapping that declares the current version. */
  predicate DumpsCurrent(dump: Payload, current: int) {
    && dump.Mapping? && Locate(dump, [Key("schema_version")]).Some?
    && Locate(dump, [Key("schema_version")]).value.Leaf?
    && IsCurrent(Locate(dump, [Key("schema_version")]).value.scalar, current)
  }

  /** The payload itself declares the current version, as an integer. */
  predicate WrittenByThis(payload: Payload, current: int) {
    Locate(payload, [Key("schema_version")]) == Some(Leaf(Int(current)))
  }

  /** Everything either says, the other says too. */
  ghost predicate SameContents(a: Payload, b: Payload) { Embedded(a, b) && Embedded(b, a) }

  function KeysOf(segments: seq<string>): seq<Step> {
    seq(|segments|, i requires 0 <= i < |segments| => Key(segments[i]))
  }

  /** The dump holds the expected value at the dotted path. */
  ghost predicate Meets(dump: Payload, path: string, value: Payload) {
    var found := Locate(dump, KeysOf(Split(path, '.')));
    found.Some? && SameContents(found.value, value)
  }

  /** What a payload has to satisfy. It loads, and so does its dump; both have the current version;
      if asked for and the payload has the current version too, nothing of it is lost; and all
      expectations are met. */
  ghost predicate Passes(payload: Payload, surface: Surface, expected: seq<(string, Payload)>, requireSame: bool) {
    var loaded := surface.load(payload);
    && loaded.Some? && IsCurrent(loaded.value.version, surface.current)
    && var dump := loaded.value.dump;
       && DumpsCurrent(dump, surface.current)
       && (requireSame && WrittenByThis(payload, surface.current) ==> Embedded(payload, dump))
       && (forall i | 0 <= i < |expected| :: Meets(dump, expected[i].0, expected[i].1))
       && surface.load(dump).Some? && IsCurrent(surface.load(dump).value.version, surface.current)
  }

  lemma VersionMeans(payload: Payload, current: int)
    ensures payload.Mapping? ==> (IsVersion(VersionOf(payload), current) <==> DumpsCurrent(payload, current))
    ensures DeclaresCurrent(payload, current) <==> WrittenByThis(payload, current)
  {
    assert [Key("schema_version")][1..] == [];
    if payload.Mapping? && VersionOf(payload).Leaf? {
      SameScalarMeans(VersionOf(payload).scalar, Int(current));
    }
  }

  lemma {:induction false} NestedMeans(payload: Payload, segments: seq<string>)
    ensures Nested(payload, segments) == Locate(payload, KeysOf(segments))
    decreases |segments|
  {
    if segments != [] {
      assert KeysOf(segments)[1..] == KeysOf(segments[1..]);
      if payload.Mapping? && Find(payload.items, segments[0]).Some? {
        NestedMeans(Find(payload.items, segments[0]).value, segments[1..]);
      }
    }
  }

  lemma {:induction false} LocatedIsDictLike(payload: Payload, steps: seq<Step>)
    requires DictLike(payload) && Locate(payload, steps).Some?
    ensures DictLike(Locate(payload, steps).value)
    decreases |steps|
  {
    if steps != [] {
      var child := Enter(payload, steps[0]).value;
      assert DictLike(child);
      LocatedIsDictLike(child, steps[1..]);
    }
  }

  lemma SameContentsMeans(a: Payload, b: Payload)
    requires DictLike(a) && DictLike(b)
    ensures SamePayload(a, b) <==> SameContents(a, b)
  {
    PreservedIsEmbedded(a, b, "");
    PreservedIsEmbedded(b, a, "");
  }

  lemma MeetsMeans(dump: Payload, path: string, value: Payload)
    requires DictLike(dump) && DictLike(value)
    ensures Meets(dump, path, value) <==>
            Nested(dump, Split(path, '.')).Some? && SamePayload(Nested(dump, Split(path, '.')).value, value)
  {
    NestedMeans(dump, Split(path, '.'));
    if Nested(dump, Split(path, '.')).Some? {
      LocatedIsDictLike(dump, KeysOf(Split(path, '.')));
      SameContentsMeans(Nested(dump, Split(path, '.')).value, value);
    }
  }

  lemma {:induction false} ExpectationsMet(dump: Payload, expected: seq<(string, Payload)>)
    requires DictLike(dump) && forall i | 0 <= i < |expected| :: DictLike(expected[i].1)
    ensures UnmetExpectation(dump, expected) == None <==>
            forall i | 0 <= i < |expected| :: Meets(dump, expected[i].0, expected[i].1)
  {
    if expected != [] {
      MeetsMeans(dump, expected[0].0, expected[0].1);
      ExpectationsMet(dump, expected[1..]);
      assert forall i | 0 < i < |expected| :: expected[i] == expected[1..][i - 1];
    }
  }

  /** The check passes exactly the payloads that satisfy this. */
  lemma ValidateSingleIsExact(payload: Payload, surface: Surface, expected: seq<(string, Payload)>, requireSame: bool)
    requires DictLike(payload) && forall i | 0 <= i < |expected| :: DictLike(expected[i].1)
    requires surface.load(payload).Some? ==> DictLike(surface.load(payload).value.dump)
    ensures ValidateSingle(payload, surface, expected, requireSame) == None <==>
            Passes(payload, surface, expected, requireSame)
  {
    var loaded := surface.load(payload);
    VersionMeans(payload, surface.current);
    if loaded.Some? {
      var dump := loaded.value.dump;
      SameScalarMeans(loaded.value.version, Int(surface.current));
      VersionMeans(dump, surface.current);
      PreservedIsEmbedded(payload, dump, "");
      ExpectationsMet(dump, expected);
      if surface.load(dump).Some? {
        SameScalarMeans(surface.load(dump).value.version, Int(surface.current));
      }
    }
  }

  /** A fixture passes exactly when its surface is known, its version is not newer than the surface's and
      its payload passes. */
  lemma FixturePasses(fixture: FixtureCase, surfaces: map<string, Surface>)
    requires DictLike(fixture.payload) && forall i | 0 <= i < |fixture.expected| :: DictLike(fixture.expected[i].1)
    requires forall key | key in surfaces && surfaces[key].load(fixture.payload).Some? ::
               DictLike(surfaces[key].load(fixture.payload).value.dump)
    ensures CaseProblem(fixture, surfaces) == None <==>
            && fixture.surfaceKey in surfaces && fixture.version <= surfaces[fixture.surfaceKey].current
            && Passes(fixture.payload, surfaces[fixture.surfaceKey], fixture.expected, false)
  {
    if fixture.surfaceKey in surfaces {
      ValidateSingleIsExact(fixture.payload, surfaces[fixture.surfaceKey], fixture.expected, false);
    }
  }
}
