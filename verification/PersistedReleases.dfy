/** Payload validation of check_persisted_settings_compat.py, over chains of releases and
    over the fixture set. */
module PersistedReleases {
  import opened Wrappers
  import opened Text
  import opened PersistedPayload

  /** A settings surface of one release: its schema version and what loading a payload
      yields, as the loaded `schema_version` and the dump; None when loading raises. */
  datatype Loaded = Loaded(version: Scalar, dump: Payload)
  datatype Surface = Surface(current: int, load: Payload -> Option<Loaded>)

  datatype Problem =
    | LoadFailed | LoadedVersion | DumpNotMapping | RoundtripVersion
    | Unpreserved(path: string) | ExpectedChanged(path: string) | ReloadFailed | ReloadedVersion
    | TooNew | UnknownSurface | MissingVersion(surface: string, version: int)

  /** `payload.get("schema_version")`. */
  function VersionOf(payload: Payload): Payload {
    if payload.Mapping? && Find(payload.items, "schema_version").Some?
    then Find(payload.items, "schema_version").value else Leaf(Null)
  }

  predicate IsVersion(value: Payload, current: int) {
    value.Leaf? && SameScalar(value.scalar, Int(current))
  }

  /** `type(raw_version) is int and raw_version == surface.current_version`. */
  predicate DeclaresCurrent(payload: Payload, current: int) {
    VersionOf(payload) == Leaf(Int(current))
  }

  /** `_get_nested_value`; None is its error. */
  function Nested(payload: Payload, segments: seq<string>): Option<Payload>
    decreases |segments|
  {
    if segments == [] then Some(payload)
    else if payload.Mapping? && Find(payload.items, segments[0]).Some?
    then Nested(Find(payload.items, segments[0]).value, segments[1..])
    else None
  }

  /** Python's `==` on payloads, which ignores the order of mappings. */
  predicate SamePayload(a: Payload, b: Payload) {
    FindUnpreserved(a, b, "") == None && FindUnpreserved(b, a, "") == None
  }

  /** `_assert_expected_paths`: the first expectation that is not met. */
  function UnmetExpectation(payload: Payload, expected: seq<(string, Payload)>): Option<string> {
    if expected == [] then None
    else
      var actual := Nested(payload, Split(expected[0].0, '.'));
      if actual.None? || !SamePayload(actual.value, expected[0].1) then Some(expected[0].0)
      else UnmetExpectation(payload, expected[1..])
  }

  /** `_validate_single_payload`; None means the payload passes. */
  function ValidateSingle(payload: Payload, surface: Surface, expected: seq<(string, Payload)>, requireSame: bool):
    (problem: Option<Problem>)
    ensures problem.Some? ==> !problem.value.MissingVersion?
  {
    match surface.load(payload)
    case None => Some(LoadFailed)
    case Some(loaded) =>
      if !SameScalar(loaded.version, Int(surface.current)) then Some(LoadedVersion)
      else if !loaded.dump.Mapping? then Some(DumpNotMapping)
      else if !IsVersion(VersionOf(loaded.dump), surface.current) then Some(RoundtripVersion)
      else
        var lost := if requireSame && DeclaresCurrent(payload, surface.current)
                    then FindUnpreserved(payload, loaded.dump, "") else None;
        var unmet := UnmetExpectation(loaded.dump, expected);
        if lost.Some? then Some(Unpreserved(lost.value))
        else if unmet.Some? then Some(ExpectedChanged(unmet.value))
        else match surface.load(loaded.dump)
          case None => Some(ReloadFailed)
          case Some(again) => if SameScalar(again.version, Int(surface.current)) then None else Some(ReloadedVersion)
  }

  /** A release accepts a payload under the schema version it declares, and hands on what it
      dumps. */
  predicate Accepts(surface: Surface, payload: Payload, next: Payload) {
    && DictLike(payload) && DeclaresCurrent(payload, surface.current)
    && ValidateSingle(payload, surface, [], true) == None
    && var loaded := surface.load(payload);
       loaded.Some? && next == loaded.value.dump
  }

  lemma AcceptedIsEmbedded(surface: Surface, payload: Payload, next: Payload)
    requires Accepts(surface, payload, next)
    ensures Embedded(payload, next)
  {
    assert FindUnpreserved(payload, next, "") == None;
    PreservedIsEmbedded(payload, next, "");
  }

  /** A payload handed from release to release. */
  predicate HandedOn(surfaces: seq<Surface>, payloads: seq<Payload>) {
    |payloads| == |surfaces| + 1 &&
    forall i | 0 <= i < |surfaces| :: Accepts(surfaces[i], payloads[i], payloads[i + 1])
  }

  /** After any number of releases that each pass the check, the payload still holds every
      value it held at the start. */
  lemma {:induction false} ReleasesPreserve(surfaces: seq<Surface>, payloads: seq<Payload>, n: nat)
    requires HandedOn(surfaces, payloads) && n <= |surfaces|
    ensures Embedded(payloads[0], payloads[n])
  {
    if n == 0 {
      EmbeddedReflexive(payloads[0]);
    } else {
      ReleasesPreserve(surfaces, payloads, n - 1);
      assert Accepts(surfaces[n - 1], payloads[n - 1], payloads[n - 1 + 1]);
      AcceptedIsEmbedded(surfaces[n - 1], payloads[n - 1], payloads[n]);
      EmbeddedTransitive(payloads[0], payloads[n - 1], payloads[n]);
    }
  }

  // ----- fixtures -----

  datatype FixtureCase = FixtureCase(surfaceKey: string, version: int, payload: Payload,
                                     expected: seq<(string, Payload)>)

  function CaseProblem(fixture: FixtureCase, surfaces: map<string, Surface>): (problem: Option<Problem>)
    ensures problem.Some? ==> !problem.value.MissingVersion?
  {
    if fixture.surfaceKey !in surfaces then Some(UnknownSurface)
    else if fixture.version > surfaces[fixture.surfaceKey].current then Some(TooNew)
    else ValidateSingle(fixture.payload, surfaces[fixture.surfaceKey], fixture.expected, false)
  }

  predicate HasFixture(cases: seq<FixtureCase>, key: string, version: int) {
    exists i | 0 <= i < |cases| :: cases[i].surfaceKey == key && cases[i].version == version
  }

  /** Every schema version of a surface so far has a fixture. */
  predicate Complete(cases: seq<FixtureCase>, key: string, current: int) {
    forall version | 1 <= version <= current :: HasFixture(cases, key, version)
  }

  ghost predicate IsSeen(seen: map<string, set<int>>, cases: seq<FixtureCase>) {
    forall key, version :: (key in seen && version in seen[key]) <==> HasFixture(cases, key, version)
  }

  method AddSeen(seen: map<string, set<int>>, fixture: FixtureCase, ghost cases: seq<FixtureCase>)
    returns (seen': map<string, set<int>>)
    requires IsSeen(seen, cases)
    ensures IsSeen(seen', cases + [fixture])
  {
    var versions := if fixture.surfaceKey in seen then seen[fixture.surfaceKey] else {};
    seen' := seen[fixture.surfaceKey := versions + {fixture.version}];
    forall key, version
      ensures (key in seen' && version in seen'[key]) <==> HasFixture(cases + [fixture], key, version)
    {
      FixtureSnoc(cases, fixture, key, version);
      assert (key in seen && version in seen[key]) <==> HasFixture(cases, key, version);
    }
  }

  /** Fixture i has the problem, and every earlier one passes. */
  predicate IsFirstProblem(cases: seq<FixtureCase>, surfaces: map<string, Surface>, i: nat, problem: Option<Problem>)
    requires i < |cases|
  {
    CaseProblem(cases[i], surfaces) == problem && forall j | 0 <= j < i :: CaseProblem(cases[j], surfaces).None?
  }

  /** The loop over the fixtures, stopping at the first that does not pass. */
  method SeenVersions(cases: seq<FixtureCase>, surfaces: map<string, Surface>)
    returns (seen: map<string, set<int>>, problem: Option<Problem>)
    ensures problem.None? <==> forall i | 0 <= i < |cases| :: CaseProblem(cases[i], surfaces).None?
    ensures problem.None? ==> IsSeen(seen, cases)
    ensures problem.Some? ==>
              !problem.value.MissingVersion? &&
              exists i | 0 <= i < |cases| :: IsFirstProblem(cases, surfaces, i, problem)
  {
    seen, problem := map[], None;
    for i := 0 to |cases|
      invariant forall j | 0 <= j < i :: CaseProblem(cases[j], surfaces).None?
      invariant IsSeen(seen, cases[..i])
    {
      problem := CaseProblem(cases[i], surfaces);
      if problem.Some? {
        assert IsFirstProblem(cases, surfaces, i, problem);
        return;
      }
      seen := AddSeen(seen, cases[i], cases[..i]);
      assert cases[..i + 1] == cases[..i] + [cases[i]];
    }
    assert cases[..|cases|] == cases;
    problem := None;
  }

  lemma FixtureSnoc(cases: seq<FixtureCase>, fixture: FixtureCase, key: string, version: int)
    ensures HasFixture(cases + [fixture], key, version) <==>
            HasFixture(cases, key, version) || (key == fixture.surfaceKey && version == fixture.version)
  {
    var longer := cases + [fixture];
    assert longer[|cases|] == fixture;
    if HasFixture(cases, key, version) {
      var i :| 0 <= i < |cases| && cases[i].surfaceKey == key && cases[i].version == version;
      assert longer[i] == cases[i];
    }
  }

  /** `validate_fixture_cases` passes exactly when every fixture does and no schema version
      of any surface is without one; a version it names is really missing. */
  method ValidateFixtureCases(cases: seq<FixtureCase>, surfaces: map<string, Surface>)
    returns (problem: Option<Problem>)
    ensures problem.None? <==>
            ((forall i | 0 <= i < |cases| :: CaseProblem(cases[i], surfaces).None?) &&
             (forall key | key in surfaces :: Complete(cases, key, surfaces[key].current)))
    ensures problem.Some? && problem.value.MissingVersion? ==>
              !HasFixture(cases, problem.value.surface, problem.value.version)
  {
    var seen;
    seen, problem := SeenVersions(cases, surfaces);
    if problem.Some? {
      return;
    }
    var todo := surfaces.Keys;
    while todo != {}
      invariant todo <= surfaces.Keys
      invariant forall key | key in surfaces && key !in todo :: Complete(cases, key, surfaces[key].current)
    {
      var key :| key in todo;
      var versions := if key in seen then seen[key] else {};
      var version := 1;
      while version <= surfaces[key].current
        invariant 1 <= version
        invariant forall v | 1 <= v < version :: HasFixture(cases, key, v)
      {
        if version !in versions {
          assert !HasFixture(cases, key, version);
          assert !Complete(cases, key, surfaces[key].current);
          return Some(MissingVersion(key, version));
        }
        version := version + 1;
      }
      todo := todo - {key};
    }
  }
}
