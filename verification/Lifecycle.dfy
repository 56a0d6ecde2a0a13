/** The deprecation deadline of check_deprecations.py and the removal gate of
    check_sdk_api_breakage.py, and what every release history accepted by both keeps. */
module Lifecycle {
  import opened Wrappers
  import opened Versions

  const RUNWAY: nat := 5

  datatype Kind = Decorator | WarnCall | CleanupCall | RestRoute | PydanticField
  datatype Removal = Never | OnDay(day: int) | AtVersion(version: Version)
  datatype DeprecationRecord = DeprecationRecord(kind: Kind, removedIn: Removal, deprecatedIn: Option<Version>)

  function MinimumRemovedIn(deprecatedIn: Version): Version {
    Version(deprecatedIn.major, deprecatedIn.minor + RUNWAY, 0, None)
  }

  /** `_runway_error(record) is not None`. */
  predicate RunwayError(record: DeprecationRecord) {
    !record.kind.CleanupCall? && record.removedIn.AtVersion? &&
    (record.deprecatedIn.None? ||
     !Le(MinimumRemovedIn(record.deprecatedIn.value), record.removedIn.version))
  }

  /** `_should_fail`. */
  predicate ShouldFail(current: Version, today: int, record: DeprecationRecord) {
    match record.removedIn
    case Never => false
    case OnDay(day) => today >= day
    case AtVersion(version) => Le(version, current)
  }

  /** The keyword arguments both scripts read off one deprecation marker. */
  datatype Metadata = Metadata(deprecatedIn: Option<Version>, removedIn: Option<Version>)

  function AsRecord(kind: Kind, metadata: Metadata): DeprecationRecord {
    DeprecationRecord(kind, if metadata.removedIn.Some? then AtVersion(metadata.removedIn.value) else Never,
                      metadata.deprecatedIn)
  }

  datatype ScheduleError = NotDeprecated | NoDeprecatedIn | NoRemovedIn | ShortRunway | TooEarly

  /** `_deprecation_schedule_errors`. */
  function ScheduleErrors(metadata: Option<Metadata>, current: Version): seq<ScheduleError> {
    if metadata.None? then [NotDeprecated]
    else if metadata.value.deprecatedIn.None? then [NoDeprecatedIn]
    else if metadata.value.removedIn.None? then [NoRemovedIn]
    else
      var removedIn := metadata.value.removedIn.value;
      if Lt(removedIn, MinimumRemovedIn(metadata.value.deprecatedIn.value)) then [ShortRunway]
      else if Lt(current, removedIn) then [TooEarly]
      else []
  }

  /** The two scripts agree at a version: keeping the feature passes exactly when removing it fails. */
  predicate Agree(kind: Kind, metadata: Metadata, today: int, current: Version) {
    !ShouldFail(current, today, AsRecord(kind, metadata)) <==> ScheduleErrors(Some(metadata), current) != []
  }

  /** A schedule leaves exactly one way to pass at every version if and only if it has
      its runway; a schedule that misses it has a version where neither way passes. */
  lemma KeepXorRemove(kind: Kind, metadata: Metadata, today: int)
    requires !kind.CleanupCall?
    ensures !RunwayError(AsRecord(kind, metadata)) <==> forall current :: Agree(kind, metadata, today, current)
  {
    if RunwayError(AsRecord(kind, metadata)) {
      var removedIn := metadata.removedIn.value;
      assert !Agree(kind, metadata, today, removedIn) by {
        if metadata.deprecatedIn.Some? {
          Trichotomy(removedIn, MinimumRemovedIn(metadata.deprecatedIn.value));
        }
      }
    } else {
      forall current
        ensures Agree(kind, metadata, today, current)
      {
        if metadata.removedIn.Some? {
          Trichotomy(current, metadata.removedIn.value);
          Trichotomy(metadata.removedIn.value, MinimumRemovedIn(metadata.deprecatedIn.value));
        }
      }
    }
  }

  // ----- releases -----

  /** One published release of a package. `exports` is empty when `__all__` is missing or
      not static; `schedules` holds the markers on top-level names; the last two fields are
      the member-level results of the comparison with the baseline. */
  datatype Release = Release(version: Version, exports: set<string>, schedules: map<string, Metadata>,
                             memberBreaks: nat, memberErrors: nat)

  /** The newest of the releases older than `current`, as an index. */
  function NewestOlder(history: seq<Release>, current: Version): (k: Option<nat>)
    ensures k.Some? ==> k.value < |history| && Lt(history[k.value].version, current)
    ensures forall i | 0 <= i < |history| && Lt(history[i].version, current) ::
              k.Some? && Le(history[i].version, history[k.value].version)
  {
    if history == [] then None
    else
      var last := |history| - 1;
      var best := NewestOlder(history[..last], current);
      if Lt(history[last].version, current) &&
         (best.None? || Lt(history[best.value].version, history[last].version))
      then
        assert forall i | 0 <= i < last && Lt(history[i].version, current) ::
          Le(history[..last][i].version, history[best.value].version);
        Some(last)
      else
        assert forall i | 0 <= i < last :: history[..last][i] == history[i];
        best
  }

  /** `get_pypi_baseline_version`: the release itself when it is already published. */
  function Baseline(history: seq<Release>, current: Version): (k: Option<nat>)
    ensures k.Some? ==> k.value < |history|
  {
    if j: nat :| j < |history| && history[j].version == current
                 && forall i | 0 <= i < j :: history[i].version != current
    then Some(j)
    else NewestOlder(history, current)
  }

  function Lookup(schedules: map<string, Metadata>, name: string): Option<Metadata> {
    if name in schedules then Some(schedules[name]) else None
  }

  /** `_check_version_bump` returns 0. */
  predicate BumpAllows(prev: Version, new_: Version, breaks: nat) {
    breaks == 0 || LaterLine(prev, new_)
  }

  /** `check_deprecations.py` passes on the source of a release. */
  predicate DeadlinesMet(release: Release) {
    forall name | name in release.schedules ::
      var record := AsRecord(Decorator, release.schedules[name]);
      !RunwayError(record) && !ShouldFail(release.version, 0, record)
  }

  /** `_check_package` passes against one baseline release. */
  predicate BreakageAllowed(baseline: Release, release: Release) {
    release.exports != {} &&
    (baseline.exports != {} ==>
      var removed := baseline.exports - release.exports;
      && (forall name | name in removed :: ScheduleErrors(Lookup(baseline.schedules, name), release.version) == [])
      && release.memberErrors == 0
      && BumpAllows(baseline.version, release.version, |removed| + release.memberBreaks))
  }

  /** Both scripts pass when `release` is about to be published after `history`. */
  predicate Accepted(history: seq<Release>, release: Release) {
    && DeadlinesMet(release)
    && var k := Baseline(history, release.version);
       (k.Some? ==> BreakageAllowed(history[k.value], release))
  }

  predicate AcceptedAt(history: seq<Release>, j: nat)
    requires j < |history|
  {
    Accepted(history[..j], history[j]) && forall i | 0 <= i < j :: history[i].version != history[j].version
  }

  /** Every release was accepted when it was published, and no version was published twice. */
  predicate AcceptedHistory(history: seq<Release>) {
    forall j | 0 <= j < |history| :: AcceptedAt(history, j)
  }

  predicate InOrder(history: seq<Release>) {
    forall i, j | 0 <= i < j < |history| :: Lt(history[i].version, history[j].version)
  }

  /** Each minor line is published in order; lines may interleave, as with back-ports. */
  predicate LineOrdered(history: seq<Release>) {
    forall i, j | 0 <= i < j < |history| && SameLine(history[i].version, history[j].version) ::
      Lt(history[i].version, history[j].version)
  }

  /** An unpublished version is compared with the newest older release. */
  lemma FreshBaseline(history: seq<Release>, j: nat)
    requires AcceptedHistory(history) && j < |history|
    ensures Baseline(history[..j], history[j].version) == NewestOlder(history[..j], history[j].version)
  {
    assert AcceptedAt(history, j);
    assert forall i | 0 <= i < j :: history[..j][i] == history[i];
  }

  /** Publishing the same version again can pass only when nothing was removed. */
  lemma RepublishRemovesNothing(history: seq<Release>, j: nat, release: Release)
    requires AcceptedHistory(history) && j < |history| && history[j].version == release.version
    requires Accepted(history, release)
    ensures history[j].exports <= release.exports
  {
    assert AcceptedAt(history, j);
    assert history[j].version == release.version && forall i | 0 <= i < j :: history[i].version != release.version;
    var k := Baseline(history, release.version).value;
    assert k == j;
    NothingRemoved(history[j], release);
  }

  /** Inside one minor line a passing comparison has no removal. */
  lemma NothingRemoved(baseline: Release, release: Release)
    requires BreakageAllowed(baseline, release) && SameLine(baseline.version, release.version)
    ensures baseline.exports <= release.exports
  {
    var removed := baseline.exports - release.exports;
    assert baseline.exports != {} ==> |removed| == 0;
    assert forall name | name in baseline.exports :: name in removed || name in release.exports;
  }

  /** Within a minor line the export set only grows, in every accepted history that
      publishes each line in order. */
  lemma {:induction false} LineGrows(history: seq<Release>, i: nat, j: nat)
    requires AcceptedHistory(history) && LineOrdered(history)
    requires i < j < |history| && SameLine(history[i].version, history[j].version)
    ensures history[i].exports <= history[j].exports
    decreases j
  {
    var k := LineBaseline(history, i, j);
    if k < i {
      Trichotomy(history[i].version, history[k].version);
    } else if i < k {
      LineGrows(history, i, k);
    }
  }

  /** A release is compared with the newest older one of its own line, if the line has any. */
  lemma LineBaseline(history: seq<Release>, i: nat, j: nat) returns (k: nat)
    requires AcceptedHistory(history)
    requires i < j < |history| && SameLine(history[i].version, history[j].version)
    requires Lt(history[i].version, history[j].version)
    ensures k < j && SameLine(history[k].version, history[j].version)
    ensures Lt(history[k].version, history[j].version) && Le(history[i].version, history[k].version)
    ensures history[k].exports <= history[j].exports
  {
    var past, release := history[..j], history[j];
    assert AcceptedAt(history, j);
    FreshBaseline(history, j);
    assert past[i] == history[i];
    k := NewestOlder(past, release.version).value;
    assert past[k] == history[k];
    Between(history[i].version, history[k].version, release.version);
    NothingRemoved(history[k], release);
  }

  lemma InOrderIsLineOrdered(history: seq<Release>)
    requires InOrder(history)
    ensures LineOrdered(history)
  {}

  function VersionsOf(history: seq<Release>): seq<Version> {
    seq(|history|, i requires 0 <= i < |history| => history[i].version)
  }

  /** The export sets of every line grow from each version to the later ones. */
  predicate Grows(history: seq<Release>) {
    forall i, j | 0 <= i < |history| && 0 <= j < |history| && SameLine(history[i].version, history[j].version)
                  && Lt(history[i].version, history[j].version) :: history[i].exports <= history[j].exports
  }

  predicate AllDistinct(versions: seq<Version>) {
    forall i, j | 0 <= i < j < |versions| :: versions[i] != versions[j]
  }

  /** The same order as LineOrdered, on the versions alone. */
  predicate LinesInOrder(versions: seq<Version>) {
    forall i, j | 0 <= i < j < |versions| && SameLine(versions[i], versions[j]) :: Lt(versions[i], versions[j])
  }

  /** Releases of the given versions that export one name, and a second one from position j on. */
  function AddedAt(versions: seq<Version>, j: nat): seq<Release> {
    seq(|versions|, x requires 0 <= x < |versions| =>
      Release(versions[x], if x < j then {"A"} else {"A", "B"}, map[], 0, 0))
  }

  lemma AddedAtAccepted(versions: seq<Version>, j: nat)
    requires AllDistinct(versions)
    ensures AcceptedHistory(AddedAt(versions, j))
  {
    var history := AddedAt(versions, j);
    forall x | 0 <= x < |history|
      ensures AcceptedAt(history, x)
    {
      var k := Baseline(history[..x], history[x].version);
      if k.Some? {
        assert history[..x][k.value] == history[k.value];
        assert "A" in history[x].exports;
        assert history[k.value].exports - history[x].exports == {};
      }
    }
  }

  /** Without order inside a line growth fails: for every publication order in which some line has
      a version after a larger one there is an accepted history whose smaller version has an
      export that the larger one lacks. */
  lemma OutOfOrderShrinks(versions: seq<Version>, i: nat, j: nat) returns (history: seq<Release>)
    requires AllDistinct(versions) && i < j < |versions|
    requires SameLine(versions[i], versions[j]) && Lt(versions[j], versions[i])
    ensures AcceptedHistory(history) && VersionsOf(history) == versions
    ensures !(history[j].exports <= history[i].exports)
  {
    history := AddedAt(versions, j);
    AddedAtAccepted(versions, j);
    assert VersionsOf(history) == versions;
    assert "B" in history[j].exports && "B" !in history[i].exports;
  }

  lemma OrderedLinesGrow(history: seq<Release>)
    requires AcceptedHistory(history) && LineOrdered(history)
    ensures Grows(history)
  {
    forall i, j | 0 <= i < |history| && 0 <= j < |history| && SameLine(history[i].version, history[j].version)
                  && Lt(history[i].version, history[j].version)
      ensures history[i].exports <= history[j].exports
    {
      if i < j {
        LineGrows(history, i, j);
      } else if j < i {
        Trichotomy(history[i].version, history[j].version);
      }
    }
  }

  /** Publishing every line in order is the exact condition: the lines of all accepted histories
      with these versions grow if and only if the versions of each line come in order. */
  lemma LineOrderIsExact(versions: seq<Version>)
    requires AllDistinct(versions)
    ensures LinesInOrder(versions) <==>
            forall history: seq<Release> | AcceptedHistory(history) && VersionsOf(history) == versions :: Grows(history)
  {
    if LinesInOrder(versions) {
      forall history: seq<Release> | AcceptedHistory(history) && VersionsOf(history) == versions
        ensures Grows(history)
      {
        assert forall x | 0 <= x < |history| :: history[x].version == VersionsOf(history)[x];
        OrderedLinesGrow(history);
      }
    } else {
      var i, j :| 0 <= i < j < |versions| && SameLine(versions[i], versions[j]) && !Lt(versions[i], versions[j]);
      Trichotomy(versions[j], versions[i]);
      var history := OutOfOrderShrinks(versions, i, j);
      assert history[i].version == VersionsOf(history)[i] && history[j].version == VersionsOf(history)[j];
      assert !Grows(history);
    }
  }

  // ----- removals -----

  /** `name` leaves the exports at release k + 1, on the schedule its last release declares:
      that release is the first at or after `removed_in`, which is at least five minor
      releases past `deprecated_in`, and it opens a later minor line. */
  predicate ScheduledRemoval(history: seq<Release>, k: nat, name: string) {
    && k + 1 < |history|
    && name in history[k].exports - history[k + 1].exports
    && name in history[k].schedules
    && var m := history[k].schedules[name];
       && m.deprecatedIn.Some? && m.removedIn.Some?
       && var d, r := m.deprecatedIn.value, m.removedIn.value;
          && (r.major > d.major || (r.major == d.major && r.minor >= d.minor + RUNWAY))
          && Le(r, history[k + 1].version)
          && (forall l | 0 <= l <= k :: Lt(history[l].version, r))
          && LaterLine(history[k].version, history[k + 1].version)
  }

  /** In order, the baseline of a release is the one before it. */
  lemma PreviousIsBaseline(history: seq<Release>, k: nat)
    requires AcceptedHistory(history) && InOrder(history) && k + 1 < |history|
    ensures BreakageAllowed(history[k], history[k + 1])
  {
    var past, release := history[..k + 1], history[k + 1];
    assert AcceptedAt(history, k + 1);
    FreshBaseline(history, k + 1);
    assert past[k] == history[k] && Lt(past[k].version, release.version);
    var b := NewestOlder(past, release.version).value;
    assert past[b] == history[b];
    if b < k {
      assert Lt(history[b].version, history[k].version);
      Trichotomy(history[b].version, history[k].version);
    }
  }

  lemma RemovalStep(history: seq<Release>, k: nat, name: string)
    requires AcceptedHistory(history) && InOrder(history) && k + 1 < |history|
    requires name in history[k].exports && name !in history[k + 1].exports
    ensures ScheduledRemoval(history, k, name)
  {
    PreviousIsBaseline(history, k);
    var removed := history[k].exports - history[k + 1].exports;
    assert name in removed;
    assert |removed| > 0;
    assert ScheduleErrors(Lookup(history[k].schedules, name), history[k + 1].version) == [];
    assert AcceptedAt(history, k);
    var m := history[k].schedules[name];
    var d, r := m.deprecatedIn.value, m.removedIn.value;
    assert !ShouldFail(history[k].version, 0, AsRecord(Decorator, m));
    Trichotomy(history[k].version, r);
    Trichotomy(history[k + 1].version, r);
    Trichotomy(r, MinimumRemovedIn(d));
    forall l | 0 <= l <= k
      ensures Lt(history[l].version, r)
    {
      if l < k { Transitive(history[l].version, history[k].version, r); }
    }
  }

  /** Over every accepted in-order history, a name that was exported and no longer is left
      through a scheduled removal. */
  lemma {:induction false} RemovalsAreScheduled(history: seq<Release>, i: nat, j: nat, name: string) returns (k: nat)
    requires AcceptedHistory(history) && InOrder(history)
    requires i < j < |history| && name in history[i].exports && name !in history[j].exports
    ensures i <= k < j && ScheduledRemoval(history, k, name)
    decreases j
  {
    if name in history[j - 1].exports {
      k := j - 1;
      RemovalStep(history, k, name);
    } else {
      k := RemovalsAreScheduled(history, i, j - 1, name);
    }
  }

  /** No release at or after `removed_in` still carries the schedule. */
  lemma NoOverdueSchedule(history: seq<Release>, j: nat, name: string)
    requires AcceptedHistory(history) && j < |history|
    requires name in history[j].schedules && history[j].schedules[name].removedIn.Some?
    ensures Lt(history[j].version, history[j].schedules[name].removedIn.value)
  {
    assert AcceptedAt(history, j);
    assert !ShouldFail(history[j].version, 0, AsRecord(Decorator, history[j].schedules[name]));
    Trichotomy(history[j].version, history[j].schedules[name].removedIn.value);
  }

  /** From release a on, every release that exports the name declares the schedule m for it. */
  predicate ScheduleStays(history: seq<Release>, a: nat, name: string, m: Metadata) {
    forall x | a <= x < |history| && name in history[x].exports ::
      name in history[x].schedules && history[x].schedules[name] == m
  }

  /** A scheduled name disappears precisely at the first release at or after `removed_in`: over
      every accepted in-order history, a release exports it if and only if it is older. */
  lemma RemovedOnSchedule(history: seq<Release>, a: nat, l: nat, name: string, m: Metadata)
    requires AcceptedHistory(history) && InOrder(history) && a <= l < |history|
    requires name in history[a].exports && m.removedIn.Some? && ScheduleStays(history, a, name, m)
    ensures name in history[l].exports <==> Lt(history[l].version, m.removedIn.value)
  {
    if name in history[l].exports {
      NoOverdueSchedule(history, l, name);
    } else {
      var k := RemovalsAreScheduled(history, a, l, name);
      Overdue(history, k, l, m.removedIn.value);
    }
  }

  lemma Overdue(history: seq<Release>, k: nat, l: nat, removedIn: Version)
    requires InOrder(history) && k < l < |history| && Le(removedIn, history[k + 1].version)
    ensures !Lt(history[l].version, removedIn)
  {
    if Lt(history[l].version, removedIn) {
      if removedIn != history[k + 1].version {
        Transitive(history[l].version, removedIn, history[k + 1].version);
      }
      Trichotomy(history[l].version, history[k + 1].version);
    }
  }

  /** A schedule can also leave no way at all. When `removed_in` lies in the minor line of the release
      that is the baseline, no later release of that line that has reached it is accepted, whether
      it keeps the name with its marker or removes it. */
  lemma StuckInLine(history: seq<Release>, release: Release, name: string, m: Metadata)
    requires Baseline(history, release.version).Some?
    requires var baseline := history[Baseline(history, release.version).value];
             && name in baseline.exports && SameLine(baseline.version, release.version)
             && name in baseline.schedules && baseline.schedules[name] == m
    requires m.removedIn.Some? && Le(m.removedIn.value, release.version)
    requires name in release.exports ==> name in release.schedules && release.schedules[name] == m
    ensures !Accepted(history, release)
  {
    if name in release.exports {
      assert ShouldFail(release.version, 0, AsRecord(Decorator, release.schedules[name]));
    } else {
      RemovalBreaks(history[Baseline(history, release.version).value], release, name);
    }
  }

  lemma RemovalBreaks(baseline: Release, release: Release, name: string)
    requires name in baseline.exports && name !in release.exports && SameLine(baseline.version, release.version)
    ensures !BreakageAllowed(baseline, release)
  {
    if BreakageAllowed(baseline, release) {
      NothingRemoved(baseline, release);
    }
  }

  /** That the schedule stays is needed: for every valid schedule, a release that drops the marker
      is accepted at or after `removed_in` with the name still exported. */
  lemma DroppedMarkerKeepsExport(name: string, m: Metadata, before: Version, after: Version)
    returns (history: seq<Release>)
    requires m.removedIn.Some? && !RunwayError(AsRecord(Decorator, m))
    requires Lt(before, m.removedIn.value) && Le(m.removedIn.value, after)
    ensures AcceptedHistory(history) && InOrder(history) && VersionsOf(history) == [before, after]
    ensures name in history[0].exports && history[0].schedules == map[name := m] && name in history[1].exports
  {
    var first := Release(before, {name}, map[name := m], 0, 0);
    var second := Release(after, {name}, map[], 0, 0);
    history := [first, second];
    Trichotomy(before, m.removedIn.value);
    if m.removedIn.value != after {
      Transitive(before, m.removedIn.value, after);
    }
    Trichotomy(before, after);
    assert AcceptedAt(history, 0) by {
      assert history[..0] == [];
    }
    assert AcceptedAt(history, 1) by {
      assert history[..1] == [first];
      assert first.exports - second.exports == {};
    }
  }
}
