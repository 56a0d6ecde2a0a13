/** What a release has to satisfy to be accepted by both SDK scripts, with the policy written out. */
module ReleaseGate {
  import opened Wrappers
  import opened Versions
  import opened Lifecycle

  /** `removed_in` is at least five minor releases past `deprecated_in`, in the same major version,
      or in a later major version. */
  predicate HasRunway(deprecatedIn: Version, removedIn: Version) {
    || removedIn.major > deprecatedIn.major
    || (removedIn.major == deprecatedIn.major && removedIn.minor > deprecatedIn.minor + 5)
    || (removedIn.major == deprecatedIn.major && removedIn.minor == deprecatedIn.minor + 5
        && (removedIn.patch > 0 || removedIn.pre.None?))
  }

  /** A name may leave the exports: its marker schedules it with a runway, and the time has come. */
  predicate MayLeave(schedules: map<string, Metadata>, name: string, current: Version) {
    && name in schedules && schedules[name].deprecatedIn.Some? && schedules[name].removedIn.Some?
    && HasRunway(schedules[name].deprecatedIn.value, schedules[name].removedIn.value)
    && !Lt(current, schedules[name].removedIn.value)
  }

  /** A marker may stay: it schedules nothing, or it has a runway and the time has not come. */
  predicate MayStay(m: Metadata, current: Version) {
    m.removedIn.Some? ==>
      m.deprecatedIn.Some? && HasRunway(m.deprecatedIn.value, m.removedIn.value) && Lt(current, m.removedIn.value)
  }

  /** The deadline check on any record: a version-based one needs a runway unless it is a clean-up call,
      and fails from its version or its day on. */
  lemma DeadlineMeans(record: DeprecationRecord, current: Version, today: int)
    ensures RunwayError(record) <==>
            && record.kind != CleanupCall && record.removedIn.AtVersion?
            && !(record.deprecatedIn.Some? && HasRunway(record.deprecatedIn.value, record.removedIn.version))
    ensures ShouldFail(current, today, record) <==>
            || (record.removedIn.AtVersion? && !Lt(current, record.removedIn.version))
            || (record.removedIn.OnDay? && record.removedIn.day <= today)
  {
    if record.removedIn.AtVersion? {
      Trichotomy(current, record.removedIn.version);
      if record.deprecatedIn.Some? {
        RunwayMeans(record.deprecatedIn.value, record.removedIn.version);
      }
    }
  }

  /** The policy against a baseline release. Every export that is gone could leave, no member was
      removed against its schedule, and any break opens a later minor or major line. */
  predicate Allowed(baseline: Release, release: Release) {
    && release.exports != {}
    && (baseline.exports != {} ==>
          && (forall name | name in baseline.exports && name !in release.exports ::
                MayLeave(baseline.schedules, name, release.version))
          && release.memberErrors == 0
          && ((baseline.exports <= release.exports && release.memberBreaks == 0)
              || release.version.major > baseline.version.major
              || (release.version.major == baseline.version.major && release.version.minor > baseline.version.minor)))
  }

  lemma RunwayMeans(deprecatedIn: Version, removedIn: Version)
    ensures Lt(removedIn, MinimumRemovedIn(deprecatedIn)) <==> !HasRunway(deprecatedIn, removedIn)
    ensures Le(MinimumRemovedIn(deprecatedIn), removedIn) <==> HasRunway(deprecatedIn, removedIn)
  {
    Trichotomy(removedIn, MinimumRemovedIn(deprecatedIn));
  }

  lemma LeaveMeans(schedules: map<string, Metadata>, name: string, current: Version)
    ensures ScheduleErrors(Lookup(schedules, name), current) == [] <==> MayLeave(schedules, name, current)
  {
    if name in schedules && schedules[name].deprecatedIn.Some? && schedules[name].removedIn.Some? {
      RunwayMeans(schedules[name].deprecatedIn.value, schedules[name].removedIn.value);
    }
  }

  lemma StayMeans(m: Metadata, current: Version)
    ensures !RunwayError(AsRecord(Decorator, m)) && !ShouldFail(current, 0, AsRecord(Decorator, m)) <==>
            MayStay(m, current)
  {
    if m.removedIn.Some? {
      Trichotomy(current, m.removedIn.value);
      if m.deprecatedIn.Some? {
        RunwayMeans(m.deprecatedIn.value, m.removedIn.value);
      }
    }
  }

  lemma AllowedMeans(baseline: Release, release: Release)
    ensures BreakageAllowed(baseline, release) <==> Allowed(baseline, release)
  {
    var removed := baseline.exports - release.exports;
    forall name | name in removed
      ensures ScheduleErrors(Lookup(baseline.schedules, name), release.version) == [] <==>
              MayLeave(baseline.schedules, name, release.version)
    {
      LeaveMeans(baseline.schedules, name, release.version);
    }
    assert removed == {} <==> baseline.exports <= release.exports by {
      assert forall name | name in baseline.exports :: name in removed || name in release.exports;
    }
    assert |removed| == 0 <==> removed == {};
  }

  /** The release the comparison is with: the one published under the same version, or else the newest
      older one. */
  predicate IsBaseline(history: seq<Release>, current: Version, k: nat) {
    && k < |history|
    && if exists i | 0 <= i < |history| :: history[i].version == current then history[k].version == current
       else Lt(history[k].version, current)
            && forall i | 0 <= i < |history| && Lt(history[i].version, current) ::
                 Le(history[i].version, history[k].version)
  }

  lemma {:induction false} FirstWithVersion(history: seq<Release>, current: Version, n: nat) returns (j: nat)
    requires n < |history| && history[n].version == current
    ensures j <= n && history[j].version == current && forall i | 0 <= i < j :: history[i].version != current
  {
    j := n;
    if i: nat :| i < n && history[i].version == current {
      j := FirstWithVersion(history, current, i);
    }
  }

  lemma BaselineMeans(history: seq<Release>, current: Version)
    ensures Baseline(history, current).Some? ==> IsBaseline(history, current, Baseline(history, current).value)
    ensures Baseline(history, current).None? ==> forall k: nat :: !IsBaseline(history, current, k)
  {
    if n :| 0 <= n < |history| && history[n].version == current {
      var j := FirstWithVersion(history, current, n);
      assert j < |history| && history[j].version == current && forall i | 0 <= i < j :: history[i].version != current;
    }
  }

  /** Both scripts pass exactly when every marker of the release may stay and the policy holds against
      the baseline, if there is one. */
  lemma AcceptedIsExact(history: seq<Release>, release: Release)
    ensures Accepted(history, release) <==>
            && (forall name | name in release.schedules :: MayStay(release.schedules[name], release.version))
            && (Baseline(history, release.version).Some? ==>
                  Allowed(history[Baseline(history, release.version).value], release))
    ensures forall k | Baseline(history, release.version) == Some(k) :: IsBaseline(history, release.version, k)
  {
    forall name | name in release.schedules
      ensures MayStay(release.schedules[name], release.version) <==>
              !RunwayError(AsRecord(Decorator, release.schedules[name]))
              && !ShouldFail(release.version, 0, AsRecord(Decorator, release.schedules[name]))
    {
      StayMeans(release.schedules[name], release.version);
    }
    BaselineMeans(history, release.version);
    if Baseline(history, release.version).Some? {
      AllowedMeans(history[Baseline(history, release.version).value], release);
    }
  }
}
