/** Package versions with epoch 0, in the order of `packaging.version`: releases by
    (major, minor, patch), and the pre-releases of a release before it. */
module Versions {
  import opened Wrappers

  datatype Version = Version(major: nat, minor: nat, patch: nat, pre: Option<nat>)

  predicate Lt(a: Version, b: Version) {
    if a.major != b.major then a.major < b.major
    else if a.minor != b.minor then a.minor < b.minor
    else if a.patch != b.patch then a.patch < b.patch
    else a.pre.Some? && (b.pre.Some? ==> a.pre.value < b.pre.value)
  }

  predicate Le(a: Version, b: Version) { a == b || Lt(a, b) }

  predicate SameLine(a: Version, b: Version) { a.major == b.major && a.minor == b.minor }

  /** A strictly larger (major, minor). */
  predicate LaterLine(a: Version, b: Version) {
    b.major > a.major || (b.major == a.major && b.minor > a.minor)
  }

  /** The order is total, so `not (a >= b)` in the code is `a < b`. */
  lemma Trichotomy(a: Version, b: Version)
    ensures Lt(a, b) <==> a != b && !Lt(b, a)
  {}

  lemma Transitive(a: Version, b: Version, c: Version)
    requires Lt(a, b) && Lt(b, c)
    ensures Lt(a, c)
  {}

  /** A minor line is an interval of the order. */
  lemma Between(a: Version, b: Version, c: Version)
    requires Le(a, b) && Le(b, c) && SameLine(a, c)
    ensures SameLine(a, b)
  {}
}
